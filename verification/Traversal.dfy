// The resumable traversal: a frontier, pending rows and the directories met, advanced page by
// page under row limits, page fitting and a deadline. Every page continues the one walk.
module Traversal {
  import opened Wrappers
  import opened TextOrder
  import opened RowOrder
  import opened Walk

  datatype Code = BudgetExceeded | RecordExceedsBudget | IoError | OtherCode

  // What the page says about one more row.
  datatype Fit = RowFits | RowNextPage | RowIntrinsicOverflow

  datatype Limits = Limits(maxFiles: nat, maxDirs: nat, maxParsed: nat)

  // ---- Sorting the rows of one candidate ----

  predicate Ordered(rows: seq<Row>) {
    forall i, j :: 0 <= i < j < |rows| ==> CompareRows(rows[i], rows[j]) <= 0
  }

  lemma NotAfter(a: Row, b: Row, c: Row)
    requires ValidRow(a) && ValidRow(b) && ValidRow(c)
    requires CompareRows(a, b) <= 0 && CompareRows(b, c) <= 0
    ensures CompareRows(a, c) <= 0
  {
    hide CompareRows, ValidRow;
    RowZero(a, b);
    RowZero(b, c);
    if CompareRows(a, b) < 0 && CompareRows(b, c) < 0 {
      RowChains(a, b, c);
    }
  }

  // Puts a row after the rows that are not after it.
  method SortIn(sorted: seq<Row>, row: Row) returns (longer: seq<Row>)
    requires Ordered(sorted) && AllValid(sorted) && ValidRow(row)
    ensures Ordered(longer) && AllValid(longer) && |longer| == |sorted| + 1
    ensures forall r :: r in longer <==> r in sorted || r == row
  {
    hide CompareRows, ValidRow;
    var k := |sorted|;
    while k > 0 && CompareRows(sorted[k - 1], row) > 0
      invariant 0 <= k <= |sorted|
      invariant forall j :: k <= j < |sorted| ==> CompareRows(row, sorted[j]) <= 0
    {
      RowFlips(sorted[k - 1], row);
      k := k - 1;
    }
    forall j | 0 <= j < k ensures CompareRows(sorted[j], row) <= 0 {
      if j < k - 1 {
        NotAfter(sorted[j], sorted[k - 1], row);
      }
    }
    longer := sorted[..k] + [row] + sorted[k..];
    PutIn(sorted, k, row);
  }

  lemma PutIn(sorted: seq<Row>, k: nat, row: Row)
    requires Ordered(sorted) && AllValid(sorted) && ValidRow(row) && k <= |sorted|
    requires forall j :: 0 <= j < k ==> CompareRows(sorted[j], row) <= 0
    requires forall j :: k <= j < |sorted| ==> CompareRows(row, sorted[j]) <= 0
    ensures var longer := sorted[..k] + [row] + sorted[k..];
            && Ordered(longer) && AllValid(longer) && |longer| == |sorted| + 1
            && forall r :: r in longer <==> r in sorted || r == row
  {
    hide CompareRows, ValidRow;
    var longer := sorted[..k] + [row] + sorted[k..];
    assert forall i :: 0 <= i < |longer| ==>
      longer[i] == if i < k then sorted[i] else if i == k then row else sorted[i - 1];
    forall r | r in sorted ensures r in longer {
      var i :| 0 <= i < |sorted| && sorted[i] == r;
      assert longer[if i < k then i else i + 1] == r;
    }
    assert longer[k] == row;
  }

  method SortRows(rows: seq<Row>) returns (sorted: seq<Row>)
    requires AllValid(rows)
    ensures Ordered(sorted) && AllValid(sorted) && |sorted| == |rows|
    ensures forall r :: r in sorted <==> r in rows
  {
    sorted := [];
    var k := 0;
    while k < |rows|
      invariant 0 <= k <= |rows| == |rows| && |sorted| == k
      invariant Ordered(sorted) && AllValid(sorted)
      invariant forall r :: r in sorted <==> r in rows[..k]
    {
      assert rows[..k + 1] == rows[..k] + [rows[k]];
      sorted := SortIn(sorted, rows[k]);
      k := k + 1;
    }
    assert rows[..k] == rows;
  }

  // Drops repeated rows of an ordered run, in place.
  method CompactRows(rows: array<Row>) returns (write: nat)
    requires Ordered(rows[..]) && AllValid(rows[..])
    modifies rows
    ensures write <= rows.Length && Ascending(rows[..write]) && AllValid(rows[..write])
    ensures forall r :: r in rows[..write] <==> r in old(rows[..])
  {
    hide CompareRows, ValidRow;
    ghost var was := rows[..];
    write := 0;
    var read := 0;
    while read < rows.Length
      invariant 0 <= write <= read <= rows.Length
      invariant Ascending(rows[..write]) && AllValid(rows[..write])
      invariant forall r :: r in rows[..write] <==> r in was[..read]
      invariant rows[read..] == was[read..]
    {
      var row := rows[read];
      assert row == rows[read..][0] == was[read];
      assert was[..read + 1] == was[..read] + [row];
      LastKept(rows[..write], was, read);
      assert rows[read..][1..] == was[read..][1..];
      if write == 0 || CompareRows(rows[write - 1], row) != 0 {
        ghost var kept := rows[..write];
        rows[write] := row;
        assert rows[..write + 1] == kept + [row];
        assert rows[read + 1..] == was[read + 1..];
        write := write + 1;
      } else {
        RowZero(rows[write - 1], row);
        assert rows[..write][write - 1] == row;
      }
      read := read + 1;
    }
    assert was[..read] == was;
  }

  // Everything kept so far comes before the next row or is the same.
  lemma LastKept(kept: seq<Row>, rows: seq<Row>, read: nat)
    requires read < |rows| && Ordered(rows) && AllValid(rows) && Ascending(kept) && AllValid(kept)
    requires forall r :: r in kept <==> r in rows[..read]
    ensures forall k :: 0 <= k < |kept| ==> CompareRows(kept[k], rows[read]) <= 0
    ensures kept != [] && CompareRows(kept[|kept| - 1], rows[read]) != 0 ==> Ascending(kept + [rows[read]])
  {
    hide CompareRows, ValidRow;
    forall k | 0 <= k < |kept| ensures CompareRows(kept[k], rows[read]) <= 0 {
      assert kept[k] in rows[..read];
    }
    if kept != [] && CompareRows(kept[|kept| - 1], rows[read]) != 0 {
      forall k | 0 <= k < |kept| ensures CompareRows(kept[k], rows[read]) < 0 {
        if k < |kept| - 1 {
          RowChains(kept[k], kept[|kept| - 1], rows[read]);
        }
      }
    }
  }

  method SortAndCompact(found: seq<Row>) returns (rows: seq<Row>)
    requires AllValid(found)
    ensures rows == Canonical(found)
  {
    hide CompareRows, ValidRow;
    var sorted := SortRows(found);
    var buffer := new Row[|sorted|](k requires 0 <= k < |sorted| => sorted[k]);
    assert buffer[..] == sorted;
    var write := CompactRows(buffer);
    rows := buffer[..write];
    CanonicalAscends(found);
    AscendingUnique(rows, Canonical(found));
  }

  // ---- The frontier ----

  function CompareUnits(l: Unit, r: Unit): int {
    First(CompareText(l.path, r.path), if l.kind == r.kind then 0 else if l.kind == Dir then -1 else 1)
  }

  function UnitSet(frontier: seq<Unit>): set<Unit> {
    set u | u in frontier
  }

  // The unit at `k` is the one with the smallest path.
  lemma SmallestIsFirst(world: World, frontier: seq<Unit>, entered: set<Text>, k: nat)
    requires k < |frontier| && FrontierOk(world, UnitSet(frontier), entered)
    requires forall j :: 0 <= j < |frontier| ==> CompareUnits(frontier[k], frontier[j]) <= 0
    ensures IsFirst(frontier[k], UnitSet(frontier))
  {
    forall v | v in UnitSet(frontier) && v != frontier[k] ensures UnitBefore(frontier[k], v) {
      var j :| 0 <= j < |frontier| && frontier[j] == v;
      assert CompareUnits(frontier[k], frontier[j]) <= 0;
      TextZero(frontier[k].path, v.path);
      assert frontier[k].path != v.path;
    }
  }

  lemma Removed(frontier: seq<Unit>, k: nat)
    requires k < |frontier| && Distinct(frontier)
    ensures
      var rest := frontier[..k] + frontier[k + 1..];
      Distinct(rest) && UnitSet(rest) == UnitSet(frontier) - {frontier[k]}
  {
    var rest := frontier[..k] + frontier[k + 1..];
    assert frontier == frontier[..k] + [frontier[k]] + frontier[k + 1..];
    forall u ensures u in UnitSet(rest) <==> u in UnitSet(frontier) && u != frontier[k] {
    }
  }

  lemma SmallerThan(frontier: seq<Unit>, first: nat, j: nat, k: nat)
    requires first < |frontier| && j < |frontier| && k < |frontier|
    requires CompareUnits(frontier[first], frontier[j]) <= 0 && CompareUnits(frontier[k], frontier[first]) < 0
    ensures CompareUnits(frontier[k], frontier[j]) <= 0
  {
    TextsInOrder(frontier[k].path, frontier[first].path, frontier[j].path);
  }

  // ---- Reading directories ----

  // Reads a directory's entries in some order, perhaps another one every time.
  type Reader = (Identity, nat) -> seq<Entry>

  ghost predicate Reads(world: World, reader: Reader) {
    forall id, n: nat :: id in world.entries ==> Listing(reader(id, n), world.entries[id])
  }

  ghost predicate Listing(listing: seq<Entry>, entries: set<Entry>) {
    Distinct(listing) && forall e :: e in listing <==> e in entries
  }

  // The units of the entries that are kept, in the order they were read.
  function Kept(world: World, u: Unit, listing: seq<Entry>): seq<Unit> {
    if listing == [] then []
    else
      var front := Kept(world, u, listing[..|listing| - 1]);
      var e := listing[|listing| - 1];
      if Keeps(world, u, e) then front + [UnitFor(u, e)] else front
  }

  lemma {:induction false} KeptAre(world: World, u: Unit, listing: seq<Entry>)
    requires Distinct(listing) && forall e, f :: e in listing && f in listing && e.name == f.name ==> e == f
    ensures forall c :: c in Kept(world, u, listing) <==>
      exists e :: e in listing && Keeps(world, u, e) && c == UnitFor(u, e)
    ensures Distinct(Kept(world, u, listing))
  {
    hide Keeps;
    if listing != [] {
      var front, e := listing[..|listing| - 1], listing[|listing| - 1];
      assert listing == front + [e];
      KeptAre(world, u, front);
      forall c | c in Kept(world, u, front) ensures c != UnitFor(u, e) {
        var f :| f in front && Keeps(world, u, f) && c == UnitFor(u, f);
        assert f in listing && e in listing && f != e;
        JoinInjective(u.path, e.name, f.name);
      }
      var kept := Kept(world, u, front);
      assert forall i :: 0 <= i < |kept| ==> kept[i] in kept;
    }
  }

  // Whatever order a directory was read in, its kept units are its children.
  lemma KeptIsChildren(world: World, u: Unit, listing: seq<Entry>)
    requires WorldOk(world) && u.kind == Dir && u.identity in world.entries
             && Listing(listing, world.entries[u.identity])
    ensures Distinct(Kept(world, u, listing)) && UnitSet(Kept(world, u, listing)) == Children(world, u)
  {
    KeptAre(world, u, listing);
  }

  lemma Added(frontier: seq<Unit>, kept: seq<Unit>)
    requires Distinct(frontier) && Distinct(kept) && UnitSet(frontier) !! UnitSet(kept)
    ensures Distinct(frontier + kept) && UnitSet(frontier + kept) == UnitSet(frontier) + UnitSet(kept)
  {
    forall i, j | 0 <= i < |frontier| && 0 <= j < |kept| ensures frontier[i] != kept[j] {
      assert frontier[i] in UnitSet(frontier) && kept[j] in UnitSet(kept);
    }
  }

  lemma ChildrenAreNew(world: World, frontier: set<Unit>, entered: set<Text>, u: Unit)
    requires WorldOk(world) && FrontierOk(world, frontier, entered) && u in frontier && u.kind == Dir
    ensures (frontier - {u}) !! Children(world, u)
  {
    hide WorldOk, Children, CompareText, Parent;
    NotOpened(world, frontier, entered, u);
    forall c | c in Children(world, u) ensures c !in frontier - {u} {
      ChildFacts(world, u, c);
      assert c in frontier ==> Parent(c.path) in entered;
    }
  }

  // ---- Interruptions ----

  // What catches a visit: the end of its call's time or its cancellation while a file is read,
  // while its symbols are parsed, or while a directory is listed; or another limit or an error of
  // the file system, which fails the visit with its code.
  datatype Strike = Untouched | Reading | Parsing | Enumerating | Failing(code: Code)

  // A selected file in a search of symbols is parsed if it is a text.
  predicate Parses(world: World, u: Unit) {
    world.family == SearchSymbols && u.kind == File && world.selects(u.path, File)
    && world.parsed(u.path, u.identity).Some?
  }

  // The length of the text that is parsed.
  function TextLength(world: World, u: Unit): nat {
    if Parses(world, u) then world.parsed(u.path, u.identity).value else 0
  }

  // A file to be parsed is skipped with no more than a warning when the budget for parsed text
  // is used up, when the file does not fit what is left, or when the call ends while it is read.
  predicate Skips(world: World, u: Unit, strike: Strike, room: nat) {
    Parses(world, u) && !strike.Failing? &&
    (room == 0 || strike == Reading || TextLength(world, u) > room)
  }

  // What an uninterrupted visit leaves of the budget for parsed text.
  function RoomLeft(world: World, u: Unit, strike: Strike, room: nat): (left: nat)
    ensures left <= room
  {
    if !Skips(world, u, strike, room) && TextLength(world, u) <= room then room - TextLength(world, u) else room
  }

  // What is no text has no symbols.
  lemma NoTextNoRows(world: World, u: Unit)
    requires WorldOk(world) && world.family == SearchSymbols && u.kind == File
    requires world.parsed(u.path, u.identity) == None
    ensures RowsFor(world, u) == []
  {
  }

  // The code that a visit fails with, if any: a search of texts cannot do without a file that it
  // started to read, nor a search of symbols without one that it started to parse.
  function Failure(world: World, u: Unit, opens: bool, strike: Strike, room: nat): Option<Code> {
    if u.kind == File && !world.selects(u.path, File) then None
    else
      match strike
      case Untouched => None
      case Failing(code) => Some(code)
      case Enumerating => if opens then Some(BudgetExceeded) else None
      case Reading => if u.kind == File && world.family == SearchTexts then Some(BudgetExceeded) else None
      case Parsing => if Parses(world, u) && !Skips(world, u, strike, room) then Some(BudgetExceeded) else None
  }

  // The strike can fail a visit of the family with the code.
  predicate CanFail(family: Family, strike: Strike, code: Code) {
    || strike == Failing(code)
    || (code == BudgetExceeded &&
        (strike == Enumerating || (strike == Reading && family == SearchTexts)
         || (strike == Parsing && family == SearchSymbols)))
  }

  // Which of these visits are skipped, starting with that much room for parsed text.
  function Losses(world: World, units: seq<Unit>, strikes: seq<Strike>, room: nat): (lost: seq<bool>)
    requires |strikes| == |units|
    ensures |lost| == |units|
  {
    if units == [] then []
    else [Skips(world, units[0], strikes[0], room)]
         + Losses(world, units[1..], strikes[1..], RoomLeft(world, units[0], strikes[0], room))
  }

  function RoomAfter(world: World, units: seq<Unit>, strikes: seq<Strike>, room: nat): (left: nat)
    requires |strikes| == |units|
  {
    if units == [] then room
    else RoomAfter(world, units[1..], strikes[1..], RoomLeft(world, units[0], strikes[0], room))
  }

  lemma {:induction false} LossesOfParts(world: World, units: seq<Unit>, strikes: seq<Strike>, more: seq<Unit>,
                                         moreStrikes: seq<Strike>, room: nat)
    requires |strikes| == |units| && |moreStrikes| == |more|
    ensures var left := RoomAfter(world, units, strikes, room);
            && Losses(world, units + more, strikes + moreStrikes, room)
                 == Losses(world, units, strikes, room) + Losses(world, more, moreStrikes, left)
            && RoomAfter(world, units + more, strikes + moreStrikes, room) == RoomAfter(world, more, moreStrikes, left)
  {
    hide Skips, RoomLeft;
    if units == [] {
      assert [] + more == more && strikes + moreStrikes == moreStrikes;
    } else {
      LossesOfParts(world, units[1..], strikes[1..], more, moreStrikes, RoomLeft(world, units[0], strikes[0], room));
      assert (units + more)[1..] == units[1..] + more;
      assert (strikes + moreStrikes)[1..] == strikes[1..] + moreStrikes;
    }
  }

  // The text that these visits parse.
  function ParsedText(world: World, units: seq<Unit>): nat {
    if units == [] then 0
    else TextLength(world, units[0]) + ParsedText(world, units[1..])
  }

  // Only files that are parsed are ever lost. With room to spare for all text, they are exactly
  // those that the end of a call caught while they were read.
  lemma {:induction false} LossesAre(world: World, units: seq<Unit>, strikes: seq<Strike>, room: nat)
    requires |strikes| == |units|
    ensures forall k :: 0 <= k < |units| && Losses(world, units, strikes, room)[k] ==> Parses(world, units[k])
    ensures ParsedText(world, units) < room ==>
      forall k :: 0 <= k < |units| ==>
        (Losses(world, units, strikes, room)[k] <==> Parses(world, units[k]) && strikes[k] == Reading)
  {
    if units != [] {
      hide Parses;
      LossesAre(world, units[1..], strikes[1..], RoomLeft(world, units[0], strikes[0], room));
      var lost := Losses(world, units, strikes, room);
      assert forall k :: 0 < k < |units| ==>
        units[k] == units[1..][k - 1] && strikes[k] == strikes[1..][k - 1] && lost[k] == lost[1..][k - 1];
    }
  }

  // What a traversal shows is its whole run if and only if no file is lost that has symbols:
  // with room to spare, if and only if no call ended while a file with symbols was read.
  lemma WholeRunShown(world: World, w: Walk, strikes: seq<Strike>, room: nat)
    requires WalkOk(world, w) && |strikes| == |Visits(world, w)|
    ensures
      var units := Visits(world, w);
      var lost := Losses(world, units, strikes, room);
      && (RunWithout(world, w, lost) == Run(world, w) <==>
            forall k :: 0 <= k < |units| && lost[k] ==> RowsFor(world, units[k]) == [])
      && (ParsedText(world, units) < room ==>
            (RunWithout(world, w, lost) == Run(world, w) <==>
               forall k :: 0 <= k < |units| && Parses(world, units[k]) && strikes[k] == Reading ==>
                 RowsFor(world, units[k]) == []))
  {
    hide WalkOk, RowsFor, RunWithout, Run, Parses, Losses, ParsedText, Visits;
    var units := Visits(world, w);
    LossShows(world, w, Losses(world, units, strikes, room));
    LossesAre(world, units, strikes, room);
  }

  // Searches of other families lose nothing.
  lemma OthersShowAll(world: World, w: Walk, strikes: seq<Strike>, room: nat)
    requires WalkOk(world, w) && |strikes| == |Visits(world, w)| && world.family != SearchSymbols
    ensures RunWithout(world, w, Losses(world, Visits(world, w), strikes, room)) == Run(world, w)
  {
    hide WalkOk, RowsFor, RunWithout, Run, Losses, Visits;
    LossShows(world, w, Losses(world, Visits(world, w), strikes, room));
    LossesAre(world, Visits(world, w), strikes, room);
  }

  // ---- The state ----

  class State {
    const world: World
    const limits: Limits
    var frontier: seq<Unit>
    var pending: seq<Row>
    var seenDirs: set<Identity>
    var files: nat
    var dirs: nat
    var parsed: nat
    ghost var entered: set<Text>

    constructor (world: World, limits: Limits)
      ensures this.world == world && this.limits == limits
      ensures frontier == [] && pending == [] && seenDirs == {} && entered == {} && files == dirs == parsed == 0
    {
      this.world, this.limits := world, limits;
      frontier, pending, seenDirs, files, dirs, parsed, entered := [], [], {}, 0, 0, 0, {};
    }

    // The state as a point of the walk.
    ghost function Point(): Walk
      reads this
    {
      Walk(pending, UnitSet(frontier), seenDirs, entered)
    }

    ghost predicate Valid()
      reads this
    {
      && WalkOk(world, Point()) && Distinct(frontier)
      && files <= limits.maxFiles && dirs <= limits.maxDirs && parsed <= limits.maxParsed
    }

    // What is left of the budget for parsed text.
    function Room(): nat
      reads this
    {
      if parsed <= limits.maxParsed then limits.maxParsed - parsed else 0
    }

    // What is left of the budgets covers the rest of the walk.
    ghost predicate Affordable()
      requires Valid()
      reads this
    {
      files + FilesAhead(world, Point()) <= limits.maxFiles && dirs + DirsAhead(world, Point()) <= limits.maxDirs
    }

    // A separately owned copy, so that a failed page leaves the state it started from.
    method Clone() returns (copy: State)
      requires Valid()
      ensures fresh(copy) && copy.Valid() && copy.Point() == Point() && copy.world == world && copy.limits == limits
      ensures copy.files == files && copy.dirs == dirs && copy.parsed == parsed
    {
      copy := new State(world, limits);
      copy.parsed := parsed;
      copy.frontier, copy.pending, copy.seenDirs, copy.files, copy.dirs := frontier, pending, seenDirs, files, dirs;
      copy.entered := entered;
    }

    // Takes the first unit off the frontier.
    method PopFirst() returns (u: Unit)
      requires Valid() && frontier != []
      modifies this`frontier
      ensures IsFirst(u, UnitSet(old(frontier)))
      ensures Distinct(frontier) && UnitSet(frontier) == UnitSet(old(frontier)) - {u}
    {
      hide WorldOk, FrontierOk, IsFirst, CompareUnits;
      var first, k := 0, 1;
      SameUnit(frontier, 0);
      while k < |frontier|
        invariant 0 <= first < k <= |frontier| && frontier == old(frontier)
        invariant forall j :: 0 <= j < k ==> CompareUnits(frontier[first], frontier[j]) <= 0
      {
        if CompareUnits(frontier[k], frontier[first]) < 0 {
          SameUnit(frontier, k);
          forall j | 0 <= j < k ensures CompareUnits(frontier[k], frontier[j]) <= 0 {
            SmallerThan(frontier, first, j, k);
          }
          first := k;
        } else {
          UnitFlips(frontier[k], frontier[first]);
        }
        k := k + 1;
      }
      u := frontier[first];
      SmallestIsFirst(world, frontier, entered, first);
      Removed(frontier, first);
      frontier := frontier[..first] + frontier[first + 1..];
    }

    method MarkDirectory(identity: Identity) returns (isNew: bool)
      modifies this`seenDirs
      ensures isNew <==> identity !in old(seenDirs)
      ensures seenDirs == old(seenDirs) + {identity}
    {
      isNew := identity !in seenDirs;
      if isNew {
        seenDirs := seenDirs + {identity};
      }
    }

    // Adds the kept entries of a directory to the frontier.
    method EnumerateDirectory(u: Unit, listing: seq<Entry>)
      modifies this`frontier
      ensures frontier == old(frontier) + Kept(world, u, listing)
    {
      var temporary: seq<Unit> := [];
      var k := 0;
      while k < |listing|
        invariant 0 <= k <= |listing| && temporary == Kept(world, u, listing[..k])
      {
        assert listing[..k + 1][..k] == listing[..k];
        if Keeps(world, u, listing[k]) {
          temporary := temporary + [UnitFor(u, listing[k])];
        }
        k := k + 1;
      }
      assert listing[..k] == listing;
      frontier := frontier + temporary;
    }

    method ApplyConsumeResult(path: Text, kind: Kind, identity: Identity)
      requires WorldOk(world)
      modifies this`pending
      ensures pending == Canonical(world.rows(path, kind, identity))
    {
      var found := world.rows(path, kind, identity);
      assert RowsOk(found, path);
      pending := SortAndCompact(found);
    }

    // Visits the first unit: its rows become pending, unless they are lost, and an opened
    // directory's kept entries join the frontier. It fails when a file or directory too many
    // would be counted, or when it is struck where it cannot go on.
    method ProcessNext(reader: Reader, n: nat, strike: Strike) returns (code: Option<Code>)
      requires Valid() && Point().frontier != {} && pending == [] && Reads(world, reader)
      modifies this
      ensures WorldOk(world) && FrontierOk(world, old(Point()).frontier, old(Point()).entered)
      ensures code == None ==>
        && Valid() && VisitedOnce(world, old(Point()), Point(), strike, old(Room()))
        && Room() == RoomLeft(world, FirstUnit(world, old(Point()).frontier, old(Point()).entered), strike, old(Room()))
      ensures
        var u := FirstUnit(world, old(Point()).frontier, old(Point()).entered);
        if old(files) + FileCost(world, u) > limits.maxFiles || old(dirs) + DirCost(old(seenDirs), u) > limits.maxDirs
        then code == Some(BudgetExceeded)
        else && code == Failure(world, u, Opens(world, old(seenDirs), u), strike, old(Room()))
             && (code == None ==>
                   files == old(files) + FileCost(world, u) && dirs == old(dirs) + DirCost(old(seenDirs), u))
    {
      hide WorldOk, FrontierOk, IsFirst, Children, Keeps, Reads, Kept;
      ghost var before := Point();
      VisitOk(world, before);
      var u := PopFirst();
      FirstUnique(u, FirstUnit(world, before.frontier, before.entered), before.frontier);
      FirstFacts(world, before.frontier, before.entered, u);
      if u.kind == File {
        code := ProcessFile(u, strike);
      } else {
        code := ProcessDirectory(reader, n, u, strike, before);
      }
      if code == None {
        PendingAny(world, Visit(world, before), Point());
      }
    }

    method ProcessFile(u: Unit, strike: Strike) returns (code: Option<Code>)
      requires WorldOk(world) && u.kind == File && pending == [] && files <= limits.maxFiles
      requires parsed <= limits.maxParsed
      modifies this`pending, this`files, this`parsed
      ensures
        if old(files) + FileCost(world, u) > limits.maxFiles then code == Some(BudgetExceeded)
        else && code == Failure(world, u, false, strike, old(Room()))
             && (code == None ==>
                   && files == old(files) + FileCost(world, u) && parsed <= limits.maxParsed
                   && pending == (if Skips(world, u, strike, old(Room())) then [] else RowsFor(world, u))
                   && Room() == RoomLeft(world, u, strike, old(Room())))
    {
      hide WorldOk;
      if !world.selects(u.path, File) {
        return None;
      }
      if files >= limits.maxFiles {
        return Some(BudgetExceeded);
      }
      files := files + 1;
      if strike.Failing? {
        return Some(strike.code);
      }
      if world.family == SearchTexts && strike == Reading {
        return Some(BudgetExceeded);
      }
      if world.family == SearchSymbols {
        var length := world.parsed(u.path, u.identity);
        if length == None {
          NoTextNoRows(world, u);
          return None;
        }
        if limits.maxParsed - parsed == 0 || strike == Reading || length.value > limits.maxParsed - parsed {
          return None;
        }
        parsed := parsed + length.value;
        if strike == Parsing {
          return Some(BudgetExceeded);
        }
      }
      ApplyConsumeResult(u.path, File, u.identity);
      return None;
    }

    method ProcessDirectory(reader: Reader, n: nat, u: Unit, strike: Strike, ghost before: Walk)
      returns (code: Option<Code>)
      requires Reads(world, reader) && u.kind == Dir && u.identity in world.entries
      requires WorldOk(world) && FrontierOk(world, before.frontier, before.entered)
      requires before.frontier != {} && IsFirst(u, before.frontier)
      requires Distinct(frontier) && UnitSet(frontier) == before.frontier - {u} && pending == []
      requires seenDirs == before.seen && entered == before.entered && dirs <= limits.maxDirs
      modifies this
      ensures code == None ==> Distinct(frontier) && Point() == Visit(world, before)
      ensures parsed == old(parsed)
      ensures
        if old(dirs) + DirCost(before.seen, u) > limits.maxDirs then code == Some(BudgetExceeded)
        else && code == Failure(world, u, Opens(world, before.seen, u), strike, 0)
             && (code == None ==> files == old(files) && dirs == old(dirs) + DirCost(before.seen, u))
    {
      hide WorldOk, FrontierOk, IsFirst, Children, Keeps, Kept;
      FirstUnique(u, FirstUnit(world, before.frontier, before.entered), before.frontier);
      FirstFacts(world, before.frontier, before.entered, u);
      var isNew := MarkDirectory(u.identity);
      if isNew {
        if dirs >= limits.maxDirs {
          return Some(BudgetExceeded);
        }
        dirs := dirs + 1;
      }
      if strike.Failing? {
        return Some(strike.code);
      }
      ApplyConsumeResult(u.path, Dir, u.identity);
      if isNew && u.depth < world.maxDepth {
        if strike == Enumerating {
          return Some(BudgetExceeded);
        }
        var listing := reader(u.identity, n);
        KeptIsChildren(world, u, listing);
        ChildrenAreNew(world, before.frontier, before.entered, u);
        Added(frontier, Kept(world, u, listing));
        EnumerateDirectory(u, listing);
        entered := entered + {u.path};
      }
      return None;
    }

    // Shows pending rows up to the row limit and as far as the page takes them.
    method ShowPending(rowLimit: nat, page: Option<(nat, Row) -> Fit>, shown: seq<Row>)
      returns (output: seq<Row>, stop: Option<Fit>)
      requires |shown| <= rowLimit
      modifies this`pending
      ensures |shown| <= |output| <= rowLimit && output + pending == shown + old(pending) && |pending| <= |old(pending)|
      ensures pending != [] ==> stop.Some? || |output| == rowLimit
      ensures stop.Some? ==>
        pending != [] && stop != Some(RowFits) && page.Some? && page.value(|output|, pending[0]) == stop.value
      ensures pending == old(pending) <==> |output| == |shown|
      ensures |output| == |shown| ==> output == shown
    {
      output := shown;
      while |pending| != 0 && |output| < rowLimit
        invariant |shown| <= |output| <= rowLimit && output + pending == shown + old(pending)
                  && |pending| <= |old(pending)|
        invariant |output| - |shown| == |old(pending)| - |pending|
        decreases |pending|
      {
        var row := pending[0];
        if page.Some? {
          var fit := page.value(|output|, row);
          if fit != RowFits {
            SameStart(shown, old(pending), output, pending);
            return output, Some(fit);
          }
        }
        assert output + pending == output + [row] + pending[1..];
        output := output + [row];
        pending := pending[1..];
      }
      SameStart(shown, old(pending), output, pending);
      stop := None;
    }

    // One visit on the way: either it brings the walk closer to its end, or it fails.
    method VisitNext(reader: Reader, n: nat, strike: Strike, ghost start: Walk, ghost lost: seq<bool>,
                     ghost output: seq<Row>)
      returns (code: Option<Code>, ghost skipped: bool)
      requires Valid() && Reads(world, reader) && |frontier| > 0 && pending == []
      requires Continues(world, start, lost, output, Point())
      modifies this
      ensures |lost| < |Visits(world, start)|
      ensures code == None ==>
        && Valid() && Closer(world, Point(), old(Point()))
        && Continues(world, start, lost + [skipped], output, Point())
        && skipped == Skips(world, Visits(world, start)[|lost|], strike, old(Room()))
        && Room() == RoomLeft(world, Visits(world, start)[|lost|], strike, old(Room()))
      ensures code == None && old(Affordable()) ==> Affordable()
      ensures code.Some? ==>
        CanFail(world.family, strike, code.value) || (code == Some(BudgetExceeded) && !old(Affordable()))
    {
      hide Run, Reads, Closer, Unmet, FilesAhead, DirsAhead, FileCost, DirCost, Visit, FrontierOk, WorldOk;
      hide Continues, Skips, RoomLeft, Failure, Opens, CanFail;
      ghost var visited, room := Point(), Room();
      assert frontier[0] in visited.frontier;
      VisitCost(world, visited);
      NextIsVisited(world, start, lost, output, visited);
      ghost var u := FirstUnit(world, visited.frontier, visited.entered);
      FailureIsStruck(world, u, Opens(world, visited.seen, u), strike, room);
      skipped := Skips(world, u, strike, room);
      code := ProcessNext(reader, n, strike);
      if code == None {
        Visited(world, start, lost, output, visited, Point(), strike, room);
        SameCost(world, Visit(world, visited), Point());
      }
    }

    // Advances to the end of a page: its rows and what is left make up what was to be shown. A
    // page that is not the last made progress, unless it was allowed to start without any. The
    // visits are numbered from one.
    method AdvanceWorking(reader: Reader, rowLimit: nat, page: Option<(nat, Row) -> Fit>, stopped: nat -> bool,
                          strikes: nat -> Strike, initial: bool)
      returns (output: seq<Row>, complete: bool, code: Option<Code>, ghost lost: seq<bool>)
      requires Valid() && rowLimit > 0 && Reads(world, reader)
      modifies this
      ensures WalkOk(world, old(Point()))
      ensures code == None ==>
        && |output| <= rowLimit && parsed <= limits.maxParsed
        && PageShows(world, old(Point()), strikes, old(Room()), lost, output, complete, Point(), Room())
      ensures code == None && !complete ==> Valid()
      ensures code == None && !complete && !initial ==> Closer(world, Point(), old(Point()))
      ensures code == None && !complete && old(Affordable()) ==> Affordable()
      ensures code.Some? ==>
        || MayFail(world.family, strikes, page, code.value)
        || (code == Some(BudgetExceeded) && (!old(Affordable()) || (!initial && stopped(1))))
    {
      hide WalkOk, Run, Reads, Closer, Unmet, Continues, FilesAhead, DirsAhead, FileCost, DirCost, Visit;
      hide FrontierOk, WorldOk, Finishes, CanFail, Skips, RoomLeft, Visits, MayFail;
      ghost var start, affordable, room := Point(), Affordable(), Room();
      output, lost := [], [];
      complete := false;
      var progressed := initial;
      var n := 1;
      StartsItself(world, start);
      NothingLost(world, start, strikes, room);
      while true
        invariant Valid() && |output| <= rowLimit && Reads(world, reader) && n == |lost| + 1
        invariant Continues(world, start, lost, output, Point())
        invariant Accounted(world, start, lost, strikes, room, Room())
        invariant (Point() == start && output == []) || Closer(world, Point(), start)
        invariant progressed ==> initial || Closer(world, Point(), start)
        invariant !progressed ==> Point() == start && output == [] && n == 1
        invariant initial ==> progressed
        invariant affordable ==> Affordable()
        decreases Unmet(world, Point()), |Point().frontier|, |pending|
      {
        ghost var before := Point();
        var shown := output;
        var stop;
        output, stop := ShowPending(rowLimit, page, output);
        PendingShown(world, start, lost, shown, before, output, Point());
        SameCost(world, before, Point());
        CloserChain(world, Point(), before, start);
        if stop.Some? {
          var refused := if stop.value == RowNextPage then IoError else RecordExceedsBudget;
          Refused(world.family, strikes, page, output, stop.value, pending[0]);
          return output, false, if |output| == 0 then Some(refused) else None, lost;
        }
        progressed := progressed || |output| > |shown|;
        if |pending| != 0 {
          return output, false, None, lost;
        }
        if |frontier| == 0 {
          RunEnds(world, start, lost, output, Point());
          return output, true, None, lost;
        }
        if stopped(n) {
          return output, false, if progressed then None else Some(BudgetExceeded), lost;
        }
        ghost var visited, left := Point(), Room();
        ghost var skipped;
        code, skipped := VisitNext(reader, n, strikes(n), start, lost, output);
        if code != None {
          Struck(world.family, strikes, page, n, code.value);
          return;
        }
        OneMoreLost(world, start, lost, skipped, strikes, room, left, Room());
        lost := lost + [skipped];
        CloserChain(world, Point(), visited, before);
        CloserChain(world, Point(), visited, start);
        progressed := true;
        n := n + 1;
      }
    }
  }

  // A page shows this of a walk, after visits that lost what is marked: together with what is left
  // it makes up what was to be shown, or it shows all of that.
  ghost predicate PageShows(world: World, w: Walk, strikes: nat -> Strike, room: nat, lost: seq<bool>, shown: seq<Row>,
                            complete: bool, at: Walk, left: nat) {
    && Accounted(world, w, lost, strikes, room, left)
    && if complete then Finishes(world, w, lost, shown) else Continues(world, w, lost, shown, at)
  }

  // The strikes that meet the first visits of a call.
  function StrikesOf(strikes: nat -> Strike, visits: nat): (s: seq<Strike>)
    ensures |s| == visits && forall k :: 0 <= k < visits ==> s[k] == strikes(k + 1)
  {
    seq(visits, k requires 0 <= k < visits => strikes(k + 1))
  }

  // The marks are those of the visits made, with the strikes that met them.
  ghost predicate Accounted(world: World, w: Walk, lost: seq<bool>, strikes: nat -> Strike, room: nat, left: nat) {
    && WalkOk(world, w) && |lost| <= |Visits(world, w)|
    && var units := Visits(world, w)[..|lost|];
    && lost == Losses(world, units, StrikesOf(strikes, |lost|), room)
    && left == RoomAfter(world, units, StrikesOf(strikes, |lost|), room)
  }

  lemma NothingLost(world: World, w: Walk, strikes: nat -> Strike, room: nat)
    requires WalkOk(world, w)
    ensures Accounted(world, w, [], strikes, room, room)
  {
    hide WalkOk;
  }

  lemma OneMoreLost(world: World, w: Walk, lost: seq<bool>, skipped: bool, strikes: nat -> Strike, room: nat,
                    left: nat, next: nat)
    requires Accounted(world, w, lost, strikes, room, left) && |lost| < |Visits(world, w)|
    requires skipped == Skips(world, Visits(world, w)[|lost|], strikes(|lost| + 1), left)
    requires next == RoomLeft(world, Visits(world, w)[|lost|], strikes(|lost| + 1), left)
    ensures Accounted(world, w, lost + [skipped], strikes, room, next)
  {
    hide WalkOk, Visits, Skips, RoomLeft;
    var units, n := Visits(world, w), |lost|;
    assert units[..n + 1] == units[..n] + [units[n]];
    assert StrikesOf(strikes, n + 1) == StrikesOf(strikes, n) + [strikes(n + 1)];
    LossesOfParts(world, units[..n], StrikesOf(strikes, n), [units[n]], [strikes(n + 1)], room);
    assert [units[n]][1..] == [] && [strikes(n + 1)][1..] == [];
  }

  // A visit's failure is one that its strike can cause.
  lemma FailureIsStruck(world: World, u: Unit, opens: bool, strike: Strike, room: nat)
    ensures Failure(world, u, opens, strike, room).Some? ==>
      CanFail(world.family, strike, Failure(world, u, opens, strike, room).value)
  {
  }

  // A strike or the page may be the cause of the code.
  ghost predicate MayFail(family: Family, strikes: nat -> Strike, page: Option<(nat, Row) -> Fit>, code: Code) {
    || (exists n: nat :: CanFail(family, strikes(n), code))
    || (code == IoError && RefusesFirst(page, RowNextPage))
    || (code == RecordExceedsBudget && RefusesFirst(page, RowIntrinsicOverflow))
  }

  lemma Struck(family: Family, strikes: nat -> Strike, page: Option<(nat, Row) -> Fit>, n: nat, code: Code)
    ensures CanFail(family, strikes(n), code) ==> MayFail(family, strikes, page, code)
  {
    hide CanFail;
  }

  lemma Refused(family: Family, strikes: nat -> Strike, page: Option<(nat, Row) -> Fit>, output: seq<Row>, fit: Fit,
                row: Row)
    requires page.Some? && page.value(|output|, row) == fit && fit != RowFits
    ensures |output| == 0 ==>
      MayFail(family, strikes, page, if fit == RowNextPage then IoError else RecordExceedsBudget)
  {
    hide CanFail;
  }

  lemma SameStart(shown: seq<Row>, pending: seq<Row>, output: seq<Row>, rest: seq<Row>)
    requires output + rest == shown + pending && |shown| <= |output|
    ensures rest == pending <==> |output| == |shown|
    ensures |output| == |shown| ==> output == shown
  {
    assert output == (output + rest)[..|output|] && shown == (shown + pending)[..|shown|];
    assert rest == (output + rest)[|output|..] && pending == (shown + pending)[|shown|..];
  }

  lemma StartsItself(world: World, w: Walk)
    requires WalkOk(world, w)
    ensures Continues(world, w, [], [], w)
  {
    hide WalkOk;
    assert [] + w.pending == w.pending + [];
  }

  // What a walk shows after its pending rows does not depend on them.
  lemma PendingFirst(world: World, w: Walk, v: Walk, skipped: seq<Row>)
    requires WalkOk(world, w) && WalkOk(world, v)
    requires v == Walk(v.pending, w.frontier, w.seen, w.entered) && w.pending == skipped + v.pending
    ensures Run(world, w) == skipped + Run(world, v)
  {
    hide WorldOk, FrontierOk;
    if w.frontier != {} {
      VisitOk(world, w);
      assert Visit(world, w) == Visit(world, v);
      var rest := Run(world, Visit(world, w));
      assert w.pending + rest == skipped + (v.pending + rest);
    }
  }

  lemma PendingSuffix(world: World, w: Walk, k: nat)
    requires WalkOk(world, w) && k <= |w.pending|
    ensures WalkOk(world, Walk(w.pending[k..], w.frontier, w.seen, w.entered))
  {
    hide WorldOk, FrontierOk, CompareRows, CompareText, ValidRow;
  }

  // Showing pending rows moves them from what is left to what was shown.
  lemma PendingShown(world: World, start: Walk, lost: seq<bool>, shown: seq<Row>, before: Walk, output: seq<Row>,
                     after: Walk)
    requires Continues(world, start, lost, shown, before) && |shown| <= |output|
    requires after == Walk(after.pending, before.frontier, before.seen, before.entered)
    requires output + after.pending == shown + before.pending
    ensures Continues(world, start, lost, output, after) && WalkOk(world, after)
    ensures after.pending == before.pending || Closer(world, after, before)
  {
    hide WalkOk, Visits, RowsOf;
    var k := |output| - |shown|;
    var whole := shown + before.pending;
    assert after.pending == whole[|output|..] == before.pending[k..];
    PendingSuffix(world, before, k);
    VisitsSame(world, before, after);
  }

  lemma RunEnds(world: World, start: Walk, lost: seq<bool>, output: seq<Row>, w: Walk)
    requires Continues(world, start, lost, output, w) && w.frontier == {} && w.pending == []
    ensures Finishes(world, start, lost, output)
  {
    hide WalkOk, RowsOf;
    var units := Visits(world, start);
    assert Visits(world, w) == [];
    assert |lost| == |units| && units[..|lost|] == units;
    assert output + [] == output;
  }

  // The walk after one visit, which may have lost its rows.
  ghost predicate VisitedOnce(world: World, before: Walk, after: Walk, strike: Strike, room: nat)
    requires WorldOk(world) && FrontierOk(world, before.frontier, before.entered) && before.frontier != {}
  {
    var u := FirstUnit(world, before.frontier, before.entered);
    after == Visit(world, before).(pending := if Skips(world, u, strike, room) then [] else RowsFor(world, u))
  }

  lemma PendingAny(world: World, w: Walk, v: Walk)
    requires WalkOk(world, w) && v == w.(pending := v.pending) && (v.pending == [] || v.pending == w.pending)
    ensures WalkOk(world, v)
  {
    hide WorldOk, FrontierOk;
  }

  // The next visit of the whole walk is the first of what is left.
  lemma NextIsVisited(world: World, start: Walk, lost: seq<bool>, output: seq<Row>, w: Walk)
    requires Continues(world, start, lost, output, w) && w.frontier != {}
    ensures WorldOk(world) && FrontierOk(world, w.frontier, w.entered) && |lost| < |Visits(world, start)|
    ensures Visits(world, start)[|lost|] == FirstUnit(world, w.frontier, w.entered)
  {
    hide WorldOk, FrontierOk, Visit, RowsOf;
    assert Visits(world, w)[0] == FirstUnit(world, w.frontier, w.entered);
  }

  lemma Visited(world: World, start: Walk, lost: seq<bool>, output: seq<Row>, w: Walk, v: Walk, strike: Strike,
                room: nat)
    requires Continues(world, start, lost, output, w) && w.frontier != {} && w.pending == []
    requires WorldOk(world) && FrontierOk(world, w.frontier, w.entered) && VisitedOnce(world, w, v, strike, room)
    ensures var skipped := Skips(world, FirstUnit(world, w.frontier, w.entered), strike, room);
            Continues(world, start, lost + [skipped], output, v) && Closer(world, v, w)
  {
    hide WorldOk, FrontierOk, Ascending, AllValid, Skips, RowsFor, RowsOf, Visit, Closer;
    var u := FirstUnit(world, w.frontier, w.entered);
    VisitOk(world, w);
    VisitRows(world, w);
    PendingAny(world, Visit(world, w), v);
    VisitsSame(world, Visit(world, w), v);
    var units, n := Visits(world, start), |lost|;
    FirstOfVisits(world, w, v);
    assert units[n..][0] == u && units[n..][1..] == units[n + 1..];
    OneMoreShown(world, units, lost, Skips(world, u, strike, room));
    assert output + [] == output;
    assert start.pending + (RowsOf(world, units[..n], lost) + v.pending)
        == start.pending + RowsOf(world, units[..n], lost) + v.pending;
    CloserVisit(world, w, v);
  }

  lemma FirstOfVisits(world: World, w: Walk, v: Walk)
    requires WalkOk(world, w) && w.frontier != {} && WalkOk(world, v) && WalkOk(world, Visit(world, w))
    requires Visits(world, v) == Visits(world, Visit(world, w))
    ensures Visits(world, w) == [FirstUnit(world, w.frontier, w.entered)] + Visits(world, v)
  {
    hide WorldOk, FrontierOk, Visit;
  }

  lemma OneMoreShown(world: World, units: seq<Unit>, lost: seq<bool>, skipped: bool)
    requires |lost| < |units|
    ensures RowsOf(world, units[..|lost| + 1], lost + [skipped])
              == RowsOf(world, units[..|lost|], lost) + (if skipped then [] else RowsFor(world, units[|lost|]))
  {
    hide RowsFor;
    var n, u := |lost|, units[|lost|];
    assert units[..n + 1] == units[..n] + [u];
    RowsOfParts(world, units[..n], lost, [u], [skipped]);
    assert [u][1..] == [] && [skipped][1..] == [];
    var rows := if skipped then [] else RowsFor(world, u);
    assert RowsOf(world, [u], [skipped]) == rows + [] == rows;
  }

  lemma CloserVisit(world: World, w: Walk, v: Walk)
    requires WorldOk(world) && FrontierOk(world, w.frontier, w.entered) && w.frontier != {}
    requires v.frontier == Visit(world, w).frontier && v.seen == Visit(world, w).seen
    ensures Closer(world, v, w)
  {
    hide WorldOk, FrontierOk, Visit;
    VisitDecreases(world, w);
  }

  lemma VisitCost(world: World, w: Walk)
    requires WalkOk(world, w) && w.frontier != {}
    ensures WorldOk(world) && FrontierOk(world, w.frontier, w.entered) && WalkOk(world, Visit(world, w))
    ensures
      var u := FirstUnit(world, w.frontier, w.entered);
      && FilesAhead(world, w) == FileCost(world, u) + FilesAhead(world, Visit(world, w))
      && DirsAhead(world, w) == DirCost(w.seen, u) + DirsAhead(world, Visit(world, w))
  {
    hide WorldOk, FrontierOk, Visit, FileCost, DirCost;
    VisitOk(world, w);
  }

  // One point of a walk is closer to the end than another.
  ghost predicate Closer(world: World, w: Walk, from: Walk) {
    Unmet(world, w) < Unmet(world, from) ||
    (Unmet(world, w) == Unmet(world, from) &&
     (|w.frontier| < |from.frontier| || (|w.frontier| == |from.frontier| && |w.pending| < |from.pending|)))
  }

  // ---- Calls ----

  // The rows after the start directory's own are in strictly ascending order.
  lemma AfterStartAscends(world: World, start: Text, identity: Identity, enumerates: bool)
    requires WorldOk(world) && identity in world.entries
    ensures WalkOk(world, StartWalk(world, start, identity, enumerates))
    ensures
      var w := StartWalk(world, start, identity, enumerates);
      w.pending <= Run(world, w) && Ascending(Run(world, w)[|w.pending|..])
  {
    hide WorldOk, FrontierOk, CompareRows;
    StartOk(world, start, identity, enumerates);
    var w := StartWalk(world, start, identity, enumerates);
    var v := Walk([], w.frontier, w.seen, w.entered);
    assert w.pending[|w.pending|..] == [] && w.pending == w.pending + [];
    PendingSuffix(world, w, |w.pending|);
    PendingFirst(world, w, v, w.pending);
    RunAscends(world, v);
    assert Run(world, w)[|w.pending|..] == Run(world, v);
  }

  // The limits cover the start directory and everything the walk from it counts.
  ghost predicate Sufficient(world: World, limits: Limits, w: Walk)
    requires WalkOk(world, w)
  {
    FilesAhead(world, w) <= limits.maxFiles && 1 + DirsAhead(world, w) <= limits.maxDirs
  }

  // The page refuses a row when it is still empty, for this reason.
  ghost predicate RefusesFirst(page: Option<(nat, Row) -> Fit>, fit: Fit) {
    page.Some? && exists row :: page.value(0, row) == fit
  }

  // How one call of a traversal is limited. It is stopped at 0 if it gets no slot or has ended
  // before it starts, and at n if it has ended before its n-th visit; a first call makes its
  // visit 0 at the start directory. The strikes meet the visits by the same numbers.
  datatype Call = Call(rowLimit: nat, page: Option<(nat, Row) -> Fit>, stopped: nat -> bool, strikes: nat -> Strike)

  // The first call: visits the start directory and fills the first page.
  method AdvanceInitial(world: World, limits: Limits, start: Text, identity: Identity, enumerates: bool,
                        reader: Reader, call: Call)
    returns (output: seq<Row>, next: State, complete: bool, code: Option<Code>, ghost lost: seq<bool>)
    requires WorldOk(world) && identity in world.entries && Reads(world, reader) && call.rowLimit > 0
    ensures fresh(next) && next.world == world && next.limits == limits
    ensures WalkOk(world, StartWalk(world, start, identity, enumerates))
    ensures code == None ==>
      && |output| <= call.rowLimit && next.parsed <= limits.maxParsed
      && PageShows(world, StartWalk(world, start, identity, enumerates), call.strikes, limits.maxParsed, lost, output,
                   complete, next.Point(), next.Room())
    ensures code == None && !complete ==>
      && next.Valid()
      && (Sufficient(world, limits, StartWalk(world, start, identity, enumerates)) ==> next.Affordable())
    ensures code.Some? ==>
      || MayFail(world.family, call.strikes, call.page, code.value)
      || (code == Some(BudgetExceeded) &&
          (call.stopped(0) || !Sufficient(world, limits, StartWalk(world, start, identity, enumerates))))
  {
    hide WorldOk, FrontierOk, Run, Kept, Children, Reads, Continues, Closer, FilesAhead, DirsAhead, MayFail;
    hide Finishes, Losses, RoomAfter, CanFail, Visits;
    StartOk(world, start, identity, enumerates);
    next := new State(world, limits);
    complete, output, lost := false, [], [];
    if call.stopped(0) || limits.maxDirs == 0 {
      code := Some(BudgetExceeded);
      return;
    }
    next.dirs := 1;
    var u := Unit(start, Dir, identity, 0);
    var _ := next.MarkDirectory(identity);
    var strike := call.strikes(0);
    FailureIsStruck(world, u, enumerates, strike, limits.maxParsed);
    if strike.Failing? || (enumerates && strike == Enumerating) {
      code := if strike.Failing? then Some(strike.code) else Some(BudgetExceeded);
      Struck(world.family, call.strikes, call.page, 0, code.value);
      return;
    }
    next.ApplyConsumeResult(start, Dir, identity);
    next.entered := {start};
    if enumerates {
      var listing := reader(identity, 0);
      ReaderLists(world, reader, identity, 0);
      KeptIsChildren(world, u, listing);
      next.EnumerateDirectory(u, listing);
      assert [] + Kept(world, u, listing) == Kept(world, u, listing);
      assert UnitSet(next.frontier) == Children(world, u);
    } else {
      assert UnitSet(next.frontier) == {};
    }
    assert next.seenDirs == {identity};
    assert next.Point() == StartWalk(world, start, identity, enumerates);
    output, complete, code, lost :=
      next.AdvanceWorking(reader, call.rowLimit, call.page, call.stopped, call.strikes, true);
  }

  lemma ReaderLists(world: World, reader: Reader, identity: Identity, n: nat)
    requires Reads(world, reader) && identity in world.entries
    ensures Listing(reader(identity, n), world.entries[identity])
  {
  }

  // A later call works on a copy; the state it was given stays as it was.
  method Advance(current: State, reader: Reader, call: Call)
    returns (output: seq<Row>, next: State, complete: bool, code: Option<Code>, ghost lost: seq<bool>)
    requires current.Valid() && Reads(current.world, reader) && call.rowLimit > 0
    ensures fresh(next) && next.world == current.world && next.limits == current.limits
    ensures code == None ==>
      && |output| <= call.rowLimit && next.parsed <= next.limits.maxParsed
      && PageShows(current.world, current.Point(), call.strikes, current.Room(), lost, output, complete, next.Point(),
                   next.Room())
    ensures code == None && !complete ==>
      && next.Valid() && Closer(current.world, next.Point(), current.Point())
      && (current.Affordable() ==> next.Affordable())
    ensures code.Some? ==>
      || MayFail(current.world.family, call.strikes, call.page, code.value)
      || (code == Some(BudgetExceeded) && (call.stopped(0) || call.stopped(1) || !current.Affordable()))
  {
    hide WalkOk, Run, Reads, PageShows, Closer, FilesAhead, DirsAhead, MayFail;
    next := current.Clone();
    if call.stopped(0) {
      output, complete, code, lost := [], false, Some(BudgetExceeded), [];
      return;
    }
    output, complete, code, lost :=
      next.AdvanceWorking(reader, call.rowLimit, call.page, call.stopped, call.strikes, false);
  }

  // The call starts, lets every first row onto its page, and nothing strikes it where it cannot
  // go on. A search of symbols may end while it reads a file.
  ghost predicate Gentle(family: Family, call: Call) {
    && !call.stopped(0) && !call.stopped(1)
    && (call.page.Some? ==> forall row :: call.page.value(0, row) == RowFits)
    && (forall n: nat, code: Code :: !CanFail(family, call.strikes(n), code))
  }

  ghost predicate AllGentle(family: Family, calls: nat -> Call) {
    forall n: nat :: Gentle(family, calls(n))
  }

  // The strikes that meet the visits of all pages, which make that many visits each.
  function AllStrikes(calls: nat -> Call, visits: seq<nat>): seq<Strike> {
    if visits == [] then []
    else
      var last := |visits| - 1;
      AllStrikes(calls, visits[..last]) + StrikesOf(calls(last).strikes, visits[last])
  }

  // The marks of all visits so far, page by page.
  ghost predicate AllAccounted(world: World, w: Walk, limits: Limits, calls: nat -> Call, visits: seq<nat>,
                               lost: seq<bool>, left: nat) {
    && WalkOk(world, w) && |lost| <= |Visits(world, w)| && |AllStrikes(calls, visits)| == |lost|
    && var units := Visits(world, w)[..|lost|];
    && lost == Losses(world, units, AllStrikes(calls, visits), limits.maxParsed)
    && left == RoomAfter(world, units, AllStrikes(calls, visits), limits.maxParsed)
  }

  lemma FirstAccounted(world: World, w: Walk, limits: Limits, calls: nat -> Call, lost: seq<bool>, left: nat)
    requires Accounted(world, w, lost, calls(0).strikes, limits.maxParsed, left)
    ensures AllAccounted(world, w, limits, calls, [|lost|], lost, left)
  {
    hide WalkOk, Visits, Losses, RoomAfter;
    assert AllStrikes(calls, [|lost|]) == [] + StrikesOf(calls(0).strikes, |lost|) by {
      assert [|lost|][..0] == [];
    }
    assert AllStrikes(calls, [|lost|]) == StrikesOf(calls(0).strikes, |lost|);
  }

  lemma NextAccounted(world: World, w: Walk, limits: Limits, calls: nat -> Call, visits: seq<nat>, lost: seq<bool>,
                      left: nat, shown: seq<Row>, before: Walk, more: seq<bool>, next: nat)
    requires AllAccounted(world, w, limits, calls, visits, lost, left) && Continues(world, w, lost, shown, before)
    requires Accounted(world, before, more, calls(|visits|).strikes, left, next)
    ensures AllAccounted(world, w, limits, calls, visits + [|more|], lost + more, next)
  {
    hide WalkOk, Visits, RowsOf;
    var units := Visits(world, w);
    SplitAgain(units, |lost|, |more|);
    assert (visits + [|more|])[..|visits|] == visits;
    LossesOfParts(world, units[..|lost|], AllStrikes(calls, visits), Visits(world, before)[..|more|],
                  StrikesOf(calls(|visits|).strikes, |more|), limits.maxParsed);
  }

  // The traversal is at this point after these pages: what they show and what is left make up the
  // walk, or all of it was shown.
  ghost predicate Underway(world: World, from: Walk, limits: Limits, calls: nat -> Call, visits: seq<nat>,
                           lost: seq<bool>, shown: seq<Row>, complete: bool, at: Walk, left: nat) {
    && AllAccounted(world, from, limits, calls, visits, lost, left)
    && if complete then Finishes(world, from, lost, shown) else Continues(world, from, lost, shown, at)
  }

  lemma FirstPage(world: World, from: Walk, limits: Limits, calls: nat -> Call, lost: seq<bool>, page: seq<Row>,
                  complete: bool, at: Walk, left: nat)
    requires PageShows(world, from, calls(0).strikes, limits.maxParsed, lost, page, complete, at, left)
    ensures Underway(world, from, limits, calls, [|lost|], lost, Flatten([page]), complete, at, left)
  {
    hide WalkOk, Continues, Finishes, Accounted, AllAccounted;
    FlattenOne(page);
    FirstAccounted(world, from, limits, calls, lost, left);
  }

  lemma NextPage(world: World, from: Walk, limits: Limits, calls: nat -> Call, visits: seq<nat>, lost: seq<bool>,
                 pages: seq<seq<Row>>, before: Walk, left: nat, more: seq<bool>, page: seq<Row>, complete: bool,
                 at: Walk, next: nat)
    requires Underway(world, from, limits, calls, visits, lost, Flatten(pages), false, before, left)
    requires PageShows(world, before, calls(|visits|).strikes, left, more, page, complete, at, next)
    ensures Underway(world, from, limits, calls, visits + [|more|], lost + more, Flatten(pages + [page]), complete,
                     at, next)
  {
    hide WalkOk, Continues, Finishes, Accounted, AllAccounted;
    FlattenMore(pages, page);
    NextAccounted(world, from, limits, calls, visits, lost, left, Flatten(pages), before, more, next);
    if complete {
      FinishesOn(world, from, lost, Flatten(pages), before, more, page);
    } else {
      ContinuesOn(world, from, lost, Flatten(pages), before, more, page, at);
    }
  }

  // Follows a traversal to its end, each page cut as its call says. It ends after finitely many
  // pages, and when none of them fails the pages together are the walk's one run, without the
  // symbols of the files that are lost. With sufficient budgets and gentle calls none of them
  // fails.
  method TraverseAll(world: World, limits: Limits, start: Text, identity: Identity, enumerates: bool,
                     reader: Reader, calls: nat -> Call)
    returns (pages: seq<seq<Row>>, code: Option<Code>, ghost visits: seq<nat>)
    requires WorldOk(world) && identity in world.entries && Reads(world, reader)
    requires forall n: nat :: calls(n).rowLimit > 0
    ensures WalkOk(world, StartWalk(world, start, identity, enumerates))
    ensures code == None ==>
      var from := StartWalk(world, start, identity, enumerates);
      && |visits| == |pages| && |AllStrikes(calls, visits)| == |Visits(world, from)|
      && Flatten(pages)
           == RunWithout(world, from, Losses(world, Visits(world, from), AllStrikes(calls, visits), limits.maxParsed))
    ensures code == None ==>
      var from := StartWalk(world, start, identity, enumerates);
      var units := Visits(world, from);
      var lost := Losses(world, units, AllStrikes(calls, visits), limits.maxParsed);
      Flatten(pages) == Run(world, from) <==> forall k :: 0 <= k < |units| && lost[k] ==> RowsFor(world, units[k]) == []
    ensures Sufficient(world, limits, StartWalk(world, start, identity, enumerates))
            && AllGentle(world.family, calls) ==>
      code == None
  {
    hide WorldOk, FrontierOk, Run, Reads, Closer, Children, WalkOk, FilesAhead, DirsAhead, Underway, PageShows;
    hide MayFail, Sufficient, AllGentle, Gentle, Visits, Losses, RunWithout, AllStrikes, StartWalk, Flatten, RowsFor;
    StartOk(world, start, identity, enumerates);
    ghost var from := StartWalk(world, start, identity, enumerates);
    ghost var granted := Sufficient(world, limits, from) && AllGentle(world.family, calls);
    GentleAdmits(world.family, calls, 0);
    var output, state, complete;
    ghost var lost, more;
    output, state, complete, code, lost := AdvanceInitial(world, limits, start, identity, enumerates, reader, calls(0));
    pages, visits := [output], [|lost|];
    ghost var at, left := state.Point(), state.Room();
    if code == None {
      FirstPage(world, from, limits, calls, lost, output, complete, at, left);
    }
    while code == None && !complete
      invariant |pages| == |visits| > 0 && state.world == world && at == state.Point() && left == state.Room()
      invariant code == None && !complete ==> state.Valid()
      invariant granted ==> code == None && (!complete ==> state.Affordable())
      invariant code == None ==> Underway(world, from, limits, calls, visits, lost, Flatten(pages), complete, at, left)
      decreases if code == None && !complete then 1 else 0, Unmet(world, at), |at.frontier|, |at.pending|
    {
      ghost var before, room := at, left;
      GentleAdmits(world.family, calls, |pages|);
      output, state, complete, code, more := Advance(state, reader, calls(|pages|));
      at, left := state.Point(), state.Room();
      if code == None {
        NextPage(world, from, limits, calls, visits, lost, pages, before, room, more, output, complete, at, left);
        CloserChain(world, at, before, before);
        lost := lost + more;
      }
      visits, pages := visits + [|more|], pages + [output];
    }
    if code == None {
      AllShown(world, from, limits, calls, visits, lost, left, Flatten(pages), at);
      WholeRunShown(world, from, AllStrikes(calls, visits), limits.maxParsed);
    }
  }

  lemma AllShown(world: World, w: Walk, limits: Limits, calls: nat -> Call, visits: seq<nat>, lost: seq<bool>,
                 left: nat, shown: seq<Row>, at: Walk)
    requires Underway(world, w, limits, calls, visits, lost, shown, true, at, left)
    ensures |AllStrikes(calls, visits)| == |Visits(world, w)|
    ensures shown
              == RunWithout(world, w, Losses(world, Visits(world, w), AllStrikes(calls, visits), limits.maxParsed))
  {
    hide WalkOk, Visits, RunWithout, Losses, RoomAfter, AllStrikes;
    var units := Visits(world, w);
    assert units[..|lost|] == units;
  }

  // ---- A row that no page shows ----

  // A directory with one file, in which there is one symbol.
  const SYMBOL := Row(RowSymbol, [0x61], 0, [], 0, 1, [0x66], [0x67])

  function OneFile(): World {
    World(map[0 := {Entry([0x61], File, 1)}], 1, e => false, (path, kind) => true, SearchSymbols,
          (path, kind, id) => if path == [0x61] && kind == File then [SYMBOL] else [], (path, id) => Some(1))
  }

  // A call that ends while it reads the first file of a search, or just after.
  function EndsReading(): Call {
    Call(1, None, n => n > 1, n => if n == 1 then Reading else Untouched)
  }

  const FILE := Unit([0x61], File, 1, 1)

  lemma OneFileOk()
    ensures WorldOk(OneFile())
  {
    assert forall path: Text, kind: Kind, id: Identity :: RowsOk(OneFile().rows(path, kind, id), path);
  }

  lemma OneChild()
    ensures Children(OneFile(), Unit(ROOT, Dir, 0, 0)) == {FILE}
  {
    var start, e := Unit(ROOT, Dir, 0, 0), Entry([0x61], File, 1);
    assert e in OneFile().entries[0] && Keeps(OneFile(), start, e) && FILE == UnitFor(start, e);
  }

  lemma OneVisit(w: Walk)
    requires WalkOk(OneFile(), w) && w.frontier == {FILE} && w.pending == []
    ensures Visits(OneFile(), w) == [FILE] && Run(OneFile(), w) == RowsFor(OneFile(), FILE)
  {
    hide WorldOk, FrontierOk, RowsFor, OneFile;
    var world := OneFile();
    assert IsFirst(FILE, {FILE});
    FirstUnique(FILE, FirstUnit(world, w.frontier, w.entered), w.frontier);
    var next := Visit(world, w);
    VisitOk(world, w);
    assert next.frontier == {} && next.pending == RowsFor(world, FILE);
    assert [FILE] + [] == [FILE] && [] + next.pending == next.pending;
  }

  // The call does not fail, and yet no page ever shows the file's symbol.
  lemma SymbolIsLost(room: nat)
    ensures WorldOk(OneFile()) && WalkOk(OneFile(), StartWalk(OneFile(), ROOT, 0, true))
    ensures Gentle(SearchSymbols, EndsReading())
    ensures
      var w := StartWalk(OneFile(), ROOT, 0, true);
      && Run(OneFile(), w) == [SYMBOL] && |Visits(OneFile(), w)| == 1
      && RunWithout(OneFile(), w, Losses(OneFile(), Visits(OneFile(), w), StrikesOf(EndsReading().strikes, 1), room))
        == []
  {
    hide WorldOk, WalkOk, Visits, Run;
    var world := OneFile();
    OneFileOk();
    StartOk(world, ROOT, 0, true);
    OneChild();
    var w := StartWalk(world, ROOT, 0, true);
    OneVisit(w);
    assert RowsFor(world, FILE) == Canonical([SYMBOL]) == [SYMBOL];
    assert StrikesOf(EndsReading().strikes, 1) == [Reading];
    assert Parses(world, FILE) && Skips(world, FILE, Reading, room);
    var lost := Losses(world, [FILE], [Reading], room);
    assert lost == [true] && [FILE][1..] == [] && lost[1..] == [];
    assert RowsOf(world, [FILE], lost) == [] + [];
  }

  lemma GentleAdmits(family: Family, calls: nat -> Call, n: nat)
    ensures AllGentle(family, calls) ==>
      && !calls(n).stopped(0) && !calls(n).stopped(1)
      && forall code :: !MayFail(family, calls(n).strikes, calls(n).page, code)
  {
    hide CanFail;
    if AllGentle(family, calls) {
      assert Gentle(family, calls(n));
    }
  }

  lemma FlattenOne(page: seq<Row>)
    ensures Flatten([page]) == page
  {
    assert page + [] == page;
  }

  lemma {:induction false} FlattenMore(pages: seq<seq<Row>>, page: seq<Row>)
    ensures Flatten(pages + [page]) == Flatten(pages) + page
  {
    if pages == [] {
      assert [] + [page] == [page] && [page][1..] == [];
    } else {
      assert (pages + [page])[1..] == pages[1..] + [page];
      FlattenMore(pages[1..], page);
    }
  }

  lemma CloserChain(world: World, a: Walk, b: Walk, c: Walk)
    ensures Closer(world, a, b) && Closer(world, b, c) ==> Closer(world, a, c)
    ensures Closer(world, a, b) ==>
      Unmet(world, a) < Unmet(world, b) ||
      (Unmet(world, a) == Unmet(world, b) &&
       (|a.frontier| < |b.frontier| || (|a.frontier| == |b.frontier| && |a.pending| < |b.pending|)))
  {
    hide Unmet;
  }

  lemma UnitFlips(l: Unit, r: Unit)
    ensures CompareUnits(l, r) >= 0 ==> CompareUnits(r, l) <= 0
  {
    TextFlips(l.path, r.path);
  }

  lemma SameUnit(frontier: seq<Unit>, k: nat)
    requires k < |frontier|
    ensures CompareUnits(frontier[k], frontier[k]) <= 0
  {
    TextZero(frontier[k].path, frontier[k].path);
  }
}