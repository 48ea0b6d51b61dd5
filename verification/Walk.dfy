// The traversal of a file tree as a mathematical walk: the smallest path first, every directory
// identity entered once. Its row sequence is what every way of cutting the traversal must give.
module Walk {
  import opened Wrappers
  import opened Utf8
  import opened TextOrder
  import opened RowOrder

  type Identity = nat

  datatype Kind = Dir | File

  // A name in a directory that the ignore policy kept.
  datatype Entry = Entry(name: Text, kind: Kind, identity: Identity)

  // Something still to be visited.
  datatype Unit = Unit(path: Text, kind: Kind, identity: Identity, depth: nat)

  // A file tree that does not change, in which several paths may lead to one directory, and what
  // a traversal for one family of rows makes of its files and directories, if nothing interrupts
  // it: their rows, and for a search of symbols the length of the text that is parsed, or none
  // if the file is no text.
  datatype World = World(
    entries: map<Identity, set<Entry>>,
    maxDepth: nat,
    ignores: Entry -> bool,
    selects: (Text, Kind) -> bool,
    family: Family,
    rows: (Text, Kind, Identity) -> seq<Row>,
    parsed: (Text, Identity) -> Option<nat>)

  // "/"
  const SLASH: Byte := 0x2F

  ghost predicate WorldOk(world: World) {
    && (forall id <- world.entries, e <- world.entries[id] ::
      NameOk(e.name) && (e.kind == Dir ==> e.identity in world.entries))
    && (forall id <- world.entries, e <- world.entries[id], f <- world.entries[id] :: e.name == f.name ==> e == f)
    && (forall path: Text, kind: Kind, id: Identity :: RowsOk(world.rows(path, kind, id), path))
    && (world.family == SearchSymbols ==>
          forall path: Text, id: Identity :: world.parsed(path, id) == None ==> world.rows(path, File, id) == [])
  }

  // A name is not empty, has no separator and is not the directory itself.
  predicate NameOk(name: Text) {
    name != [] && name != ROOT && forall k :: 0 <= k < |name| ==> name[k] != SLASH
  }

  predicate RowsOk(rows: seq<Row>, path: Text) {
    forall k :: 0 <= k < |rows| ==> ValidRow(rows[k]) && rows[k].path == path
  }

  // The path of a name in a directory.
  function Join(directory: Text, name: Text): Text {
    if directory == ROOT then name else directory + [SLASH] + name
  }

  // Everything up to the last separator.
  function Parent(path: Text): (p: Text) {
    if path == [] then ROOT
    else if path[|path| - 1] == SLASH then path[..|path| - 1]
    else Parent(path[..|path| - 1])
  }

  lemma {:induction false} ParentOfPlain(name: Text)
    requires forall k :: 0 <= k < |name| ==> name[k] != SLASH
    ensures Parent(name) == ROOT
  {
    if name != [] {
      ParentOfPlain(name[..|name| - 1]);
    }
  }

  lemma {:induction false} ParentOfJoin(directory: Text, name: Text)
    requires forall k :: 0 <= k < |name| ==> name[k] != SLASH
    ensures Parent(directory + [SLASH] + name) == directory
    decreases |name|
  {
    var path := directory + [SLASH] + name;
    if name == [] {
      assert path[..|path| - 1] == directory;
    } else {
      assert path[..|path| - 1] == directory + [SLASH] + name[..|name| - 1];
      ParentOfJoin(directory, name[..|name| - 1]);
    }
  }

  // A path names its directory and its own name, and comes after the directory.
  lemma JoinFacts(directory: Text, name: Text)
    requires NameOk(name)
    ensures Parent(Join(directory, name)) == directory
    ensures Join(directory, name) != ROOT
    ensures directory != ROOT ==> CompareText(directory, Join(directory, name)) < 0
  {
    if directory == ROOT {
      ParentOfPlain(name);
    } else {
      ParentOfJoin(directory, name);
      assert directory + [SLASH] + name == directory + ([SLASH] + name);
      PrefixFirst(directory, [SLASH] + name);
    }
  }

  lemma JoinInjective(directory: Text, a: Text, b: Text)
    ensures Join(directory, a) == Join(directory, b) ==> a == b
  {
    if directory != ROOT {
      assert a == (directory + [SLASH] + a)[|directory| + 1..];
      assert b == (directory + [SLASH] + b)[|directory| + 1..];
    }
  }

  // ---- The walk ----

  // What is still to be shown and visited, the directory identities met so far, and the paths
  // of the directories entered so far.
  datatype Walk = Walk(pending: seq<Row>, frontier: set<Unit>, seen: set<Identity>, entered: set<Text>)

  predicate UnitBefore(a: Unit, b: Unit) {
    CompareText(a.path, b.path) < 0
  }

  // Every unit lies in an entered directory and after everything entered; no two share a path.
  ghost predicate FrontierOk(world: World, frontier: set<Unit>, entered: set<Text>) {
    && (forall u <- frontier :: u.path != ROOT && (u.kind == Dir ==> u.identity in world.entries))
    && (forall u <- frontier :: Parent(u.path) in entered)
    && (forall u <- frontier, p <- entered :: p != ROOT ==> CompareText(p, u.path) < 0)
    && (forall u <- frontier, v <- frontier :: u.path == v.path ==> u == v)
  }

  // The pending rows come before everything still to be visited. Only the rows of the start
  // directory may not: nothing need come after ".".
  ghost predicate PendingBefore(pending: seq<Row>, frontier: set<Unit>) {
    forall k, u :: 0 <= k < |pending| && u in frontier ==> CompareText(pending[k].path, u.path) < 0
  }

  ghost predicate WalkOk(world: World, w: Walk) {
    WorldOk(world) && FrontierOk(world, w.frontier, w.entered) && Ascending(w.pending) && AllValid(w.pending)
  }

  ghost predicate IsFirst(u: Unit, frontier: set<Unit>) {
    u in frontier && forall v <- frontier :: v != u ==> UnitBefore(u, v)
  }

  // The smallest path exists and is alone.
  lemma {:induction false} FirstExists(world: World, frontier: set<Unit>, entered: set<Text>)
    requires FrontierOk(world, frontier, entered) && frontier != {}
    ensures exists u :: IsFirst(u, frontier)
    decreases |frontier|
  {
    var u :| u in frontier;
    var rest := frontier - {u};
    if rest == {} {
      assert frontier == {u};
      assert IsFirst(u, frontier);
    } else {
      FirstExists(world, rest, entered);
      var v :| IsFirst(v, rest);
      TextZero(u.path, v.path);
      TextFlips(u.path, v.path);
      if UnitBefore(u, v) {
        forall x | x in frontier && x != u ensures UnitBefore(u, x) {
          if x != v {
            assert x in rest && UnitBefore(v, x);
            TextChains(u.path, v.path, x.path);
          }
        }
        assert IsFirst(u, frontier);
      } else {
        assert IsFirst(v, frontier);
      }
    }
  }

  lemma FirstUnique(u: Unit, v: Unit, frontier: set<Unit>)
    requires IsFirst(u, frontier) && IsFirst(v, frontier)
    ensures u == v
  {
    TextFlips(u.path, v.path);
  }

  ghost function FirstUnit(world: World, frontier: set<Unit>, entered: set<Text>): (u: Unit)
    requires FrontierOk(world, frontier, entered) && frontier != {}
    ensures IsFirst(u, frontier)
  {
    FirstExists(world, frontier, entered);
    var u :| IsFirst(u, frontier);
    u
  }

  // The units a directory puts on the frontier.
  function UnitFor(u: Unit, e: Entry): Unit {
    Unit(Join(u.path, e.name), e.kind, e.identity, u.depth + 1)
  }

  predicate Keeps(world: World, u: Unit, e: Entry) {
    !world.ignores(e) && world.selects(Join(u.path, e.name), e.kind)
  }

  ghost function Children(world: World, u: Unit): set<Unit>
    requires u.kind == Dir && u.identity in world.entries
  {
    set e | e in world.entries[u.identity] && Keeps(world, u, e) :: UnitFor(u, e)
  }

  function RowsFor(world: World, u: Unit): seq<Row> {
    if u.kind == File && !world.selects(u.path, File) then [] else Canonical(world.rows(u.path, u.kind, u.identity))
  }

  // A directory is entered when its identity is new and it is not too deep.
  predicate Opens(world: World, seen: set<Identity>, u: Unit) {
    u.kind == Dir && u.identity !in seen && u.depth < world.maxDepth
  }

  // One visit, once nothing is pending.
  ghost function Visit(world: World, w: Walk): (next: Walk)
    requires WorldOk(world) && FrontierOk(world, w.frontier, w.entered) && w.frontier != {}
  {
    var u := FirstUnit(world, w.frontier, w.entered);
    var rest := w.frontier - {u};
    Walk(
      RowsFor(world, u),
      if Opens(world, w.seen, u) then rest + Children(world, u) else rest,
      if u.kind == Dir then w.seen + {u.identity} else w.seen,
      if Opens(world, w.seen, u) then w.entered + {u.path} else w.entered)
  }

  lemma ChildFacts(world: World, u: Unit, c: Unit)
    requires WorldOk(world) && u.kind == Dir && u.identity in world.entries && c in Children(world, u)
    ensures c.path != ROOT && Parent(c.path) == u.path && (u.path != ROOT ==> CompareText(u.path, c.path) < 0)
    ensures c.kind == Dir ==> c.identity in world.entries
    ensures forall d <- Children(world, u) :: c.path == d.path ==> c == d
  {
    hide Parent, CompareText;
    var e := EntryOf(world, u, c);
    JoinFacts(u.path, e.name);
    forall d | d in Children(world, u) && c.path == d.path ensures c == d {
      var f := EntryOf(world, u, d);
      JoinInjective(u.path, e.name, f.name);
    }
  }

  lemma EntryOf(world: World, u: Unit, c: Unit) returns (e: Entry)
    requires WorldOk(world) && u.kind == Dir && u.identity in world.entries && c in Children(world, u)
    ensures e in world.entries[u.identity] && NameOk(e.name) && c == UnitFor(u, e)
    ensures c.path == Join(u.path, e.name) && (c.kind == Dir ==> c.identity in world.entries)
  {
    e :| e in world.entries[u.identity] && Keeps(world, u, e) && c == UnitFor(u, e);
  }

  // Opening the first unit keeps the frontier in order: its entries come after it and share no
  // path with anything, because nothing in it was entered before.
  lemma OpeningKeeps(world: World, frontier: set<Unit>, entered: set<Text>, u: Unit)
    requires WorldOk(world) && FrontierOk(world, frontier, entered) && IsFirst(u, frontier) && u.kind == Dir
    ensures FrontierOk(world, frontier - {u} + Children(world, u), entered + {u.path})
  {
    hide WorldOk, Children;
    var rest, children := frontier - {u}, Children(world, u);
    var next := rest + children;
    forall c | c in children
      ensures c.path != ROOT && Parent(c.path) == u.path && CompareText(u.path, c.path) < 0
      ensures c.kind == Dir ==> c.identity in world.entries
      ensures forall d <- children :: c.path == d.path ==> c == d {
      ChildFacts(world, u, c);
    }
    forall v, p | v in next && p in entered + {u.path} && p != ROOT ensures CompareText(p, v.path) < 0 {
      if v in children && p != u.path {
        TextChains(p, u.path, v.path);
      }
    }
    NotOpened(world, frontier, entered, u);
    forall v, c | v in rest && c in children ensures v.path != c.path {
      assert Parent(v.path) in entered;
    }
  }

  lemma NotOpened(world: World, frontier: set<Unit>, entered: set<Text>, u: Unit)
    requires FrontierOk(world, frontier, entered) && u in frontier
    ensures u.path !in entered
  {
    TextZero(u.path, u.path);
  }

  lemma SmallerFrontier(world: World, frontier: set<Unit>, entered: set<Text>, u: Unit)
    requires FrontierOk(world, frontier, entered)
    ensures FrontierOk(world, frontier - {u}, entered)
  {
  }

  lemma VisitOk(world: World, w: Walk)
    requires WorldOk(world) && FrontierOk(world, w.frontier, w.entered) && w.frontier != {}
    ensures WalkOk(world, Visit(world, w))
    ensures PendingBefore(Visit(world, w).pending, Visit(world, w).frontier)
  {
    hide WorldOk, FrontierOk, Children, IsFirst;
    var u := FirstUnit(world, w.frontier, w.entered);
    FirstFacts(world, w.frontier, w.entered, u);
    if Opens(world, w.seen, u) {
      OpeningKeeps(world, w.frontier, w.entered, u);
    } else {
      SmallerFrontier(world, w.frontier, w.entered, u);
    }
    RowsInPlace(world, w.frontier, w.entered, u);
    var next := Visit(world, w);
    forall v | v in next.frontier ensures CompareText(u.path, v.path) < 0 {
      if v !in w.frontier - {u} {
        ChildFacts(world, u, v);
      }
    }
  }

  lemma FirstFacts(world: World, frontier: set<Unit>, entered: set<Text>, u: Unit)
    requires FrontierOk(world, frontier, entered) && IsFirst(u, frontier)
    ensures u in frontier && (u.kind == Dir ==> u.identity in world.entries)
    ensures u.path != ROOT && forall v <- frontier - {u} :: CompareText(u.path, v.path) < 0
  {
  }

  lemma RowsInPlace(world: World, frontier: set<Unit>, entered: set<Text>, u: Unit)
    requires WorldOk(world)
    ensures
      var rows := RowsFor(world, u);
      Ascending(rows) && AllValid(rows) && forall k :: 0 <= k < |rows| ==> rows[k].path == u.path
  {
    var found := world.rows(u.path, u.kind, u.identity);
    assert RowsOk(found, u.path);
    CanonicalAscends(found);
    var rows := RowsFor(world, u);
    forall k | 0 <= k < |rows| ensures rows[k].path == u.path {
      assert rows[k] in found;
    }
  }

  // ---- Whole runs ----

  // The directory identities not met yet.
  ghost function Unmet(world: World, w: Walk): nat {
    |world.entries.Keys - w.seen|
  }

  lemma VisitDecreases(world: World, w: Walk)
    requires WorldOk(world) && FrontierOk(world, w.frontier, w.entered) && w.frontier != {}
    ensures Unmet(world, Visit(world, w)) <= Unmet(world, w)
    ensures Unmet(world, Visit(world, w)) < Unmet(world, w) || |Visit(world, w).frontier| < |w.frontier|
  {
    hide WorldOk, FrontierOk, Children, IsFirst;
    var u := FirstUnit(world, w.frontier, w.entered);
    FirstFacts(world, w.frontier, w.entered, u);
    var next := Visit(world, w);
    var before, after := world.entries.Keys - w.seen, world.entries.Keys - next.seen;
    if u.kind == Dir && u.identity !in w.seen {
      assert after == before - {u.identity};
    } else {
      assert after == before;
    }
  }

  // All rows that a walk still shows.
  ghost function Run(world: World, w: Walk): (rows: seq<Row>)
    requires WalkOk(world, w)
    decreases Unmet(world, w), |w.frontier|
  {
    if w.frontier == {} then w.pending
    else
      VisitOk(world, w);
      VisitDecreases(world, w);
      w.pending + Run(world, Visit(world, w))
  }

  // The units that a walk still visits, in their order.
  ghost function Visits(world: World, w: Walk): (units: seq<Unit>)
    requires WalkOk(world, w)
    decreases Unmet(world, w), |w.frontier|
  {
    if w.frontier == {} then []
    else
      VisitOk(world, w);
      VisitDecreases(world, w);
      [FirstUnit(world, w.frontier, w.entered)] + Visits(world, Visit(world, w))
  }

  // What is pending changes no visit.
  lemma VisitsSame(world: World, w: Walk, v: Walk)
    requires WalkOk(world, w) && WalkOk(world, v) && v == w.(pending := v.pending)
    ensures Visits(world, w) == Visits(world, v)
  {
    hide WorldOk, FrontierOk;
    if w.frontier != {} {
      assert Visit(world, w) == Visit(world, v);
    }
  }

  // The rows of these units, without those of the units that are lost.
  function RowsOf(world: World, units: seq<Unit>, lost: seq<bool>): seq<Row>
    requires |lost| == |units|
  {
    if units == [] then []
    else (if lost[0] then [] else RowsFor(world, units[0])) + RowsOf(world, units[1..], lost[1..])
  }

  // No unit is lost.
  function NoneLost(units: seq<Unit>): (lost: seq<bool>)
    ensures |lost| == |units| && forall k :: 0 <= k < |lost| ==> !lost[k]
  {
    seq(|units|, k => false)
  }

  // All rows that a walk still shows if it loses those of some of its visits.
  ghost function RunWithout(world: World, w: Walk, lost: seq<bool>): seq<Row>
    requires WalkOk(world, w) && |lost| == |Visits(world, w)|
  {
    w.pending + RowsOf(world, Visits(world, w), lost)
  }

  // A run is made of its visits.
  lemma {:induction false} RunIsVisits(world: World, w: Walk)
    requires WalkOk(world, w)
    ensures Run(world, w) == RunWithout(world, w, NoneLost(Visits(world, w)))
    decreases Unmet(world, w), |w.frontier|
  {
    hide WorldOk, FrontierOk, RowsFor, Visit;
    if w.frontier == {} {
      assert w.pending + [] == w.pending;
    } else {
      VisitOk(world, w);
      VisitDecreases(world, w);
      VisitRows(world, w);
      var next := Visit(world, w);
      RunIsVisits(world, next);
      assert Visits(world, w)[1..] == Visits(world, next);
      assert NoneLost(Visits(world, w))[1..] == NoneLost(Visits(world, next));
    }
  }

  lemma VisitRows(world: World, w: Walk)
    requires WorldOk(world) && FrontierOk(world, w.frontier, w.entered) && w.frontier != {}
    ensures Visit(world, w).pending == RowsFor(world, FirstUnit(world, w.frontier, w.entered))
  {
    hide WorldOk, FrontierOk;
  }

  // Losing visits never adds a row, and changes nothing exactly if none of them has rows.
  lemma {:induction false} RowsLost(world: World, units: seq<Unit>, lost: seq<bool>)
    requires |lost| == |units|
    ensures |RowsOf(world, units, lost)| <= |RowsOf(world, units, NoneLost(units))|
    ensures (forall k :: 0 <= k < |units| && lost[k] ==> RowsFor(world, units[k]) == []) ==>
      RowsOf(world, units, lost) == RowsOf(world, units, NoneLost(units))
    ensures (exists k :: 0 <= k < |units| && lost[k] && RowsFor(world, units[k]) != []) ==>
      |RowsOf(world, units, lost)| < |RowsOf(world, units, NoneLost(units))|
  {
    hide RowsFor;
    if units != [] {
      RowsLost(world, units[1..], lost[1..]);
      assert NoneLost(units)[1..] == NoneLost(units[1..]);
      forall k | 0 < k < |units| && lost[k] && RowsFor(world, units[k]) != []
        ensures |RowsOf(world, units[1..], lost[1..])| < |RowsOf(world, units[1..], NoneLost(units[1..]))|
      {
        assert lost[1..][k - 1] && units[1..][k - 1] == units[k];
      }
    }
  }

  // A walk that loses visits shows its whole run exactly if none of them has rows.
  lemma LossShows(world: World, w: Walk, lost: seq<bool>)
    requires WalkOk(world, w) && |lost| == |Visits(world, w)|
    ensures RunWithout(world, w, lost) == Run(world, w) <==>
      forall k :: 0 <= k < |lost| && lost[k] ==> RowsFor(world, Visits(world, w)[k]) == []
  {
    hide WalkOk, RowsFor, RowsOf;
    RunIsVisits(world, w);
    RowsLost(world, Visits(world, w), lost);
    if exists k :: 0 <= k < |lost| && lost[k] && RowsFor(world, Visits(world, w)[k]) != [] {
      assert |RunWithout(world, w, lost)| < |Run(world, w)|;
    }
  }

  lemma {:induction false} RowsOfParts(world: World, units: seq<Unit>, lost: seq<bool>, more: seq<Unit>,
                                       moreLost: seq<bool>)
    requires |lost| == |units| && |moreLost| == |more|
    ensures RowsOf(world, units + more, lost + moreLost)
              == RowsOf(world, units, lost) + RowsOf(world, more, moreLost)
  {
    hide RowsFor;
    if units == [] {
      assert [] + more == more && lost + moreLost == moreLost;
    } else {
      RowsOfParts(world, units[1..], lost[1..], more, moreLost);
      assert (units + more)[1..] == units[1..] + more;
      assert (lost + moreLost)[1..] == lost[1..] + moreLost;
    }
  }

  // How many directories a walk still opens.
  ghost function Openings(world: World, w: Walk): (n: nat)
    requires WalkOk(world, w)
    ensures n <= Unmet(world, w)
    decreases Unmet(world, w), |w.frontier|
  {
    if w.frontier == {} then 0
    else
      VisitOk(world, w);
      VisitDecreases(world, w);
      OpeningIsMeeting(world, w);
      (if Opens(world, w.seen, FirstUnit(world, w.frontier, w.entered)) then 1 else 0)
        + Openings(world, Visit(world, w))
  }

  lemma OpeningIsMeeting(world: World, w: Walk)
    requires WorldOk(world) && FrontierOk(world, w.frontier, w.entered) && w.frontier != {}
    ensures Opens(world, w.seen, FirstUnit(world, w.frontier, w.entered)) ==>
      Unmet(world, Visit(world, w)) + 1 == Unmet(world, w)
  {
    hide WorldOk, FrontierOk, Children, IsFirst;
    var u := FirstUnit(world, w.frontier, w.entered);
    FirstFacts(world, w.frontier, w.entered, u);
    if Opens(world, w.seen, u) {
      assert world.entries.Keys - Visit(world, w).seen == world.entries.Keys - w.seen - {u.identity};
    }
  }

  // ---- What a run costs ----

  // A visit counts a selected file, or a directory whose identity is new.
  function FileCost(world: World, u: Unit): nat {
    if u.kind == File && world.selects(u.path, File) then 1 else 0
  }

  function DirCost(seen: set<Identity>, u: Unit): nat {
    if u.kind == Dir && u.identity !in seen then 1 else 0
  }

  // The files and directories that a walk still counts.
  ghost function FilesAhead(world: World, w: Walk): nat
    requires WalkOk(world, w)
    decreases Unmet(world, w), |w.frontier|
  {
    if w.frontier == {} then 0
    else
      VisitOk(world, w);
      VisitDecreases(world, w);
      FileCost(world, FirstUnit(world, w.frontier, w.entered)) + FilesAhead(world, Visit(world, w))
  }

  ghost function DirsAhead(world: World, w: Walk): nat
    requires WalkOk(world, w)
    decreases Unmet(world, w), |w.frontier|
  {
    if w.frontier == {} then 0
    else
      VisitOk(world, w);
      VisitDecreases(world, w);
      DirCost(w.seen, FirstUnit(world, w.frontier, w.entered)) + DirsAhead(world, Visit(world, w))
  }

  // No directory is counted twice, by however many paths it can be reached.
  lemma {:induction false} DirsAheadBound(world: World, w: Walk)
    requires WalkOk(world, w)
    ensures DirsAhead(world, w) <= Unmet(world, w)
    decreases Unmet(world, w), |w.frontier|
  {
    hide WorldOk, FrontierOk, Children, IsFirst;
    if w.frontier != {} {
      VisitOk(world, w);
      VisitDecreases(world, w);
      DirsAheadBound(world, Visit(world, w));
      var u := FirstUnit(world, w.frontier, w.entered);
      FirstFacts(world, w.frontier, w.entered, u);
      if u.kind == Dir && u.identity !in w.seen {
        assert world.entries.Keys - Visit(world, w).seen == world.entries.Keys - w.seen - {u.identity};
      }
    }
  }

  // Pending rows cost nothing.
  lemma SameCost(world: World, w: Walk, v: Walk)
    requires WalkOk(world, w) && WalkOk(world, v)
    requires v == Walk(v.pending, w.frontier, w.seen, w.entered)
    ensures FilesAhead(world, w) == FilesAhead(world, v) && DirsAhead(world, w) == DirsAhead(world, v)
  {
    hide WorldOk, FrontierOk;
    if w.frontier != {} {
      assert Visit(world, w) == Visit(world, v);
    }
  }

  // ---- The order of a run ----

  // Everything a walk still shows comes after what everything in it comes after.
  lemma {:induction false} RunAbove(world: World, w: Walk, bound: Text)
    requires WalkOk(world, w)
    requires forall u <- w.frontier :: CompareText(bound, u.path) < 0
    requires forall k :: 0 <= k < |w.pending| ==> CompareText(bound, w.pending[k].path) < 0
    ensures AllValid(Run(world, w))
    ensures forall k :: 0 <= k < |Run(world, w)| ==> CompareText(bound, Run(world, w)[k].path) < 0
    decreases Unmet(world, w), |w.frontier|
  {
    hide WorldOk, FrontierOk, Children, IsFirst, CompareText, Parent, RowsFor;
    if w.frontier != {} {
      VisitOk(world, w);
      VisitDecreases(world, w);
      VisitAbove(world, w, bound);
      RunAbove(world, Visit(world, w), bound);
    }
  }

  lemma VisitAbove(world: World, w: Walk, bound: Text)
    requires WalkOk(world, w) && w.frontier != {}
    requires forall u <- w.frontier :: CompareText(bound, u.path) < 0
    ensures
      var next := Visit(world, w);
      && (forall u <- next.frontier :: CompareText(bound, u.path) < 0)
      && (forall k :: 0 <= k < |next.pending| ==> CompareText(bound, next.pending[k].path) < 0)
  {
    hide WorldOk, FrontierOk, Children, IsFirst, CompareText, Parent, RowsFor;
    var u := FirstUnit(world, w.frontier, w.entered);
    FirstFacts(world, w.frontier, w.entered, u);
    RowsInPlace(world, w.frontier, w.entered, u);
    forall c | c in Visit(world, w).frontier ensures CompareText(bound, c.path) < 0 {
      if c !in w.frontier {
        ChildFacts(world, u, c);
        TextChains(bound, u.path, c.path);
      }
    }
  }

  lemma PathDecides(l: Row, r: Row)
    requires CompareText(l.path, r.path) < 0
    ensures CompareRows(l, r) < 0
  {
  }

  // A run shows its rows in strictly ascending order, whatever the shape of the tree.
  lemma {:induction false} RunAscends(world: World, w: Walk)
    requires WalkOk(world, w) && PendingBefore(w.pending, w.frontier)
    ensures Ascending(Run(world, w))
    decreases Unmet(world, w), |w.frontier|
  {
    hide WorldOk, FrontierOk, Children, IsFirst, CompareText, CompareRows, Parent;
    if w.frontier != {} {
      VisitOk(world, w);
      VisitDecreases(world, w);
      var rest := Run(world, Visit(world, w));
      RunAscends(world, Visit(world, w));
      forall i, j | 0 <= i < |w.pending| && 0 <= j < |rest| ensures CompareRows(w.pending[i], rest[j]) < 0 {
        VisitAbove(world, w, w.pending[i].path);
        RunAbove(world, Visit(world, w), w.pending[i].path);
        PathDecides(w.pending[i], rest[j]);
      }
    }
  }

  // Everything on the frontier is shown, and so is everything its directories put there.
  lemma {:induction false} RunShows(world: World, w: Walk, u: Unit)
    requires WalkOk(world, w) && u in w.frontier
    ensures forall r :: r in RowsFor(world, u) ==> r in Run(world, w)
    decreases Unmet(world, w), |w.frontier|
  {
    hide WorldOk, FrontierOk, Children, IsFirst, Parent, RowsFor;
    VisitOk(world, w);
    VisitDecreases(world, w);
    var next := Visit(world, w);
    if u == FirstUnit(world, w.frontier, w.entered) {
      RunStarts(world, next);
    } else {
      RunShows(world, next, u);
    }
  }

  lemma RunStarts(world: World, w: Walk)
    requires WalkOk(world, w)
    ensures w.pending <= Run(world, w)
  {
    hide WalkOk;
  }

  // A unit of the frontier, or an entry of a directory found that way.
  ghost predicate Found(world: World, frontier: set<Unit>, u: Unit, steps: nat)
    decreases steps
  {
    if steps == 0 then u in frontier
    else exists v :: Found(world, frontier, v, steps - 1) && Holds(world, v, u)
  }

  ghost predicate Holds(world: World, v: Unit, u: Unit) {
    v.kind == Dir && v.identity in world.entries && u in Children(world, v)
  }

  ghost predicate Reachable(world: World, frontier: set<Unit>, u: Unit) {
    exists steps: nat :: Found(world, frontier, u, steps)
  }

  // Opening a unit reaches nothing new.
  lemma {:induction false} FoundBefore(world: World, frontier: set<Unit>, next: set<Unit>, first: Unit, u: Unit,
                                       steps: nat)
    requires first in frontier && forall v :: v in next ==> v in frontier || Holds(world, first, v)
    requires Found(world, next, u, steps)
    ensures Found(world, frontier, u, steps) || Found(world, frontier, u, steps + 1)
    decreases steps
  {
    hide Holds;
    if steps == 0 {
      if u !in frontier {
        assert Found(world, frontier, first, 0) && Holds(world, first, u);
      }
    } else {
      var v :| Found(world, next, v, steps - 1) && Holds(world, v, u);
      FoundBefore(world, frontier, next, first, v, steps - 1);
    }
  }

  lemma ReachedBefore(world: World, w: Walk, u: Unit)
    requires WorldOk(world) && FrontierOk(world, w.frontier, w.entered) && w.frontier != {}
    requires Reachable(world, Visit(world, w).frontier, u)
    ensures Reachable(world, w.frontier, u)
  {
    hide WorldOk, FrontierOk, Children, IsFirst, Found;
    var first := FirstUnit(world, w.frontier, w.entered);
    FirstFacts(world, w.frontier, w.entered, first);
    var steps: nat :| Found(world, Visit(world, w).frontier, u, steps);
    FoundBefore(world, w.frontier, Visit(world, w).frontier, first, u, steps);
  }

  // Nothing else is shown: every row was pending or is one of a unit that the frontier leads to.
  lemma {:induction false} RunShowsOnly(world: World, w: Walk, r: Row)
    requires WalkOk(world, w) && r in Run(world, w)
    ensures r in w.pending || exists u :: Reachable(world, w.frontier, u) && r in RowsFor(world, u)
    decreases Unmet(world, w), |w.frontier|
  {
    hide WorldOk, FrontierOk, Children, IsFirst, RowsFor, Reachable;
    if w.frontier != {} && r !in w.pending {
      VisitOk(world, w);
      VisitDecreases(world, w);
      RunShowsOnly(world, Visit(world, w), r);
      var first := FirstUnit(world, w.frontier, w.entered);
      if r in Visit(world, w).pending {
        FirstIsReachable(world, w.frontier, first);
      } else {
        var u :| Reachable(world, Visit(world, w).frontier, u) && r in RowsFor(world, u);
        ReachedBefore(world, w, u);
      }
    }
  }

  lemma FirstIsReachable(world: World, frontier: set<Unit>, u: Unit)
    requires IsFirst(u, frontier)
    ensures Reachable(world, frontier, u)
  {
    assert Found(world, frontier, u, 0);
  }

  // ---- Which directories are opened ----

  // The identities of the directories a walk still opens.
  ghost function Opened(world: World, w: Walk): set<Identity>
    requires WalkOk(world, w)
    decreases Unmet(world, w), |w.frontier|
  {
    if w.frontier == {} then {}
    else
      VisitOk(world, w);
      VisitDecreases(world, w);
      var u := FirstUnit(world, w.frontier, w.entered);
      (if Opens(world, w.seen, u) then {u.identity} else {}) + Opened(world, Visit(world, w))
  }

  // The first directory with this identity that a walk still visits.
  ghost function FirstMeeting(world: World, w: Walk, id: Identity): Option<Unit>
    requires WalkOk(world, w)
    decreases Unmet(world, w), |w.frontier|
  {
    if w.frontier == {} then None
    else
      VisitOk(world, w);
      VisitDecreases(world, w);
      var u := FirstUnit(world, w.frontier, w.entered);
      if u.kind == Dir && u.identity == id then Some(u) else FirstMeeting(world, Visit(world, w), id)
  }

  // A directory that was met is not opened any more.
  lemma {:induction false} SeenStaysClosed(world: World, w: Walk, id: Identity)
    requires WalkOk(world, w) && id in w.seen
    ensures id !in Opened(world, w)
    decreases Unmet(world, w), |w.frontier|
  {
    hide WorldOk, FrontierOk, Children, IsFirst;
    if w.frontier != {} {
      VisitOk(world, w);
      VisitDecreases(world, w);
      SeenStaysClosed(world, Visit(world, w), id);
    }
  }

  // A directory is opened exactly if it was not met before and the first path that leads to it,
  // in the order of the walk, is not too deep. A later path to it, even a shorter one, does not
  // count: a directory first met at the depth limit stays closed.
  lemma {:induction false} OpenedByFirstPath(world: World, w: Walk, id: Identity)
    requires WalkOk(world, w)
    ensures id in Opened(world, w) <==>
      id !in w.seen && FirstMeeting(world, w, id).Some? && FirstMeeting(world, w, id).value.depth < world.maxDepth
    decreases Unmet(world, w), |w.frontier|
  {
    hide WorldOk, FrontierOk, Children, IsFirst;
    if w.frontier != {} {
      VisitOk(world, w);
      VisitDecreases(world, w);
      var u := FirstUnit(world, w.frontier, w.entered);
      if u.kind == Dir && u.identity == id {
        SeenStaysClosed(world, Visit(world, w), id);
      } else {
        OpenedByFirstPath(world, Visit(world, w), id);
      }
    }
  }

  // ---- The start of a run ----

  // The walk from a directory, right after its own rows were found.
  ghost function StartWalk(world: World, start: Text, identity: Identity, enumerates: bool): Walk
    requires WorldOk(world) && identity in world.entries
  {
    var u := Unit(start, Dir, identity, 0);
    Walk(Canonical(world.rows(start, Dir, identity)), if enumerates then Children(world, u) else {},
         {identity}, {start})
  }

  lemma StartOk(world: World, start: Text, identity: Identity, enumerates: bool)
    requires WorldOk(world) && identity in world.entries
    ensures WalkOk(world, StartWalk(world, start, identity, enumerates))
  {
    hide WorldOk, Children;
    var u := Unit(start, Dir, identity, 0);
    RowsInPlace(world, {u}, {}, u);
    forall c | c in Children(world, u)
      ensures c.path != ROOT && Parent(c.path) == start && (start != ROOT ==> CompareText(start, c.path) < 0)
      ensures c.kind == Dir ==> c.identity in world.entries
      ensures forall d <- Children(world, u) :: c.path == d.path ==> c == d {
      ChildFacts(world, u, c);
    }
  }

  // ---- Cutting a run ----

  // What was shown and what is pending are the rows of the visits made so far, one for each
  // mark in `lost`; the rest of the visits is still to come.
  ghost predicate Continues(world: World, w: Walk, lost: seq<bool>, shown: seq<Row>, next: Walk) {
    && WalkOk(world, w) && WalkOk(world, next) && |lost| <= |Visits(world, w)|
    && Visits(world, next) == Visits(world, w)[|lost|..]
    && shown + next.pending == w.pending + RowsOf(world, Visits(world, w)[..|lost|], lost)
  }

  // All visits were made, and everything was shown.
  ghost predicate Finishes(world: World, w: Walk, lost: seq<bool>, shown: seq<Row>) {
    WalkOk(world, w) && |lost| == |Visits(world, w)| && shown == RunWithout(world, w, lost)
  }

  function Flatten<T>(pages: seq<seq<T>>): seq<T> {
    if pages == [] then [] else pages[0] + Flatten(pages[1..])
  }

  // Pages that each go on where the one before stopped, the last one to the end.
  ghost predicate Paged(world: World, walks: seq<Walk>, lost: seq<seq<bool>>, pages: seq<seq<Row>>) {
    && |walks| == |pages| == |lost| > 0
    && (forall k :: 0 <= k < |pages| - 1 ==> Continues(world, walks[k], lost[k], pages[k], walks[k + 1]))
    && Finishes(world, walks[|walks| - 1], lost[|lost| - 1], pages[|pages| - 1])
  }

  lemma SplitAgain<T>(s: seq<T>, a: nat, b: nat)
    requires a + b <= |s|
    ensures s[a..][..b] == s[a..a + b] && s[a..][b..] == s[a + b..] && s[..a] + s[a..][..b] == s[..a + b]
  {
  }

  // One page after another.
  lemma ContinuesOn(world: World, w: Walk, lost: seq<bool>, shown: seq<Row>, next: Walk, moreLost: seq<bool>,
                    more: seq<Row>, last: Walk)
    requires Continues(world, w, lost, shown, next) && Continues(world, next, moreLost, more, last)
    ensures Continues(world, w, lost + moreLost, shown + more, last)
  {
    hide WalkOk, Visits, RowsOf;
    var units := Visits(world, w);
    SplitAgain(units, |lost|, |moreLost|);
    RowsOfParts(world, units[..|lost|], lost, Visits(world, next)[..|moreLost|], moreLost);
    var first, second := RowsOf(world, units[..|lost|], lost),
        RowsOf(world, Visits(world, next)[..|moreLost|], moreLost);
    assert shown + (more + last.pending) == shown + more + last.pending;
    assert shown + (next.pending + second) == shown + next.pending + second;
    assert w.pending + first + second == w.pending + (first + second);
  }

  lemma FinishesOn(world: World, w: Walk, lost: seq<bool>, shown: seq<Row>, next: Walk, moreLost: seq<bool>,
                   more: seq<Row>)
    requires Continues(world, w, lost, shown, next) && Finishes(world, next, moreLost, more)
    ensures Finishes(world, w, lost + moreLost, shown + more)
  {
    hide WalkOk, Visits, RowsOf;
    var units := Visits(world, w);
    RowsOfParts(world, units[..|lost|], lost, units[|lost|..], moreLost);
    assert units[..|lost|] + units[|lost|..] == units;
    var first, second := RowsOf(world, units[..|lost|], lost), RowsOf(world, units[|lost|..], moreLost);
    assert shown + (next.pending + second) == shown + next.pending + second;
    assert w.pending + first + second == w.pending + (first + second);
  }

  // However a traversal is cut into pages, the pages together are the one run, without the rows
  // of the visits that are lost.
  lemma {:induction false} PagesMakeRun(world: World, walks: seq<Walk>, lost: seq<seq<bool>>, pages: seq<seq<Row>>)
    requires Paged(world, walks, lost, pages)
    ensures Finishes(world, walks[0], Flatten(lost), Flatten(pages))
    decreases |pages|
  {
    hide Continues, Finishes;
    if |pages| == 1 {
      assert pages[0] + [] == pages[0] && lost[0] + [] == lost[0];
    } else {
      var laterWalks, laterLost, laterPages := walks[1..], lost[1..], pages[1..];
      forall k | 0 <= k < |laterPages| - 1
        ensures Continues(world, laterWalks[k], laterLost[k], laterPages[k], laterWalks[k + 1])
      {
        assert Continues(world, walks[k + 1], lost[k + 1], pages[k + 1], walks[k + 2]);
      }
      assert Continues(world, walks[0], lost[0], pages[0], walks[1]);
      PagesMakeRun(world, laterWalks, laterLost, laterPages);
      FinishesOn(world, walks[0], lost[0], pages[0], walks[1], Flatten(laterLost), Flatten(laterPages));
    }
  }

  // Two ways of cutting the same traversal that lose the same visits show the same rows, and one
  // that loses none shows the run.
  lemma CutsAgree(world: World, walks: seq<Walk>, lost: seq<seq<bool>>, pages: seq<seq<Row>>, otherWalks: seq<Walk>,
                  otherLost: seq<seq<bool>>, otherPages: seq<seq<Row>>)
    requires Paged(world, walks, lost, pages) && Paged(world, otherWalks, otherLost, otherPages)
    requires walks[0] == otherWalks[0] && Flatten(lost) == Flatten(otherLost)
    ensures Flatten(pages) == Flatten(otherPages)
    ensures true !in Flatten(lost) ==> WalkOk(world, walks[0]) && Flatten(pages) == Run(world, walks[0])
  {
    hide WalkOk, RunWithout;
    PagesMakeRun(world, walks, lost, pages);
    PagesMakeRun(world, otherWalks, otherLost, otherPages);
    LossShows(world, walks[0], Flatten(lost));
  }
}
