// How deep a walk goes: the depth of a unit is the number of names that its path adds to the
// path of the start directory, so the depth limit speaks of paths.
module WalkDepth {
  import opened Wrappers
  import opened TextOrder
  import opened RowOrder
  import opened Walk

  // ---- Names below a directory ----

  // The path reached by following names from a directory.
  function Down(start: Text, names: seq<Text>): Text {
    if names == [] then start else Join(Down(start, names[..|names| - 1]), names[|names| - 1])
  }

  predicate AreNames(names: seq<Text>) {
    forall k :: 0 <= k < |names| ==> NameOk(names[k])
  }

  function Separators(path: Text): nat {
    if path == [] then 0 else (if path[0] == SLASH then 1 else 0) + Separators(path[1..])
  }

  // The number of names in a path; "." has none.
  function Level(path: Text): nat {
    if path == ROOT then 0 else 1 + Separators(path)
  }

  lemma {:induction false} SeparatorsJoin(a: Text, b: Text)
    ensures Separators(a + b) == Separators(a) + Separators(b)
  {
    if a == [] {
      assert a + b == b;
    } else {
      assert (a + b)[1..] == a[1..] + b;
      SeparatorsJoin(a[1..], b);
    }
  }

  lemma {:induction false} NameHasNone(name: Text)
    requires forall k :: 0 <= k < |name| ==> name[k] != SLASH
    ensures Separators(name) == 0
  {
    if name != [] {
      NameHasNone(name[1..]);
    }
  }

  lemma LevelOfJoin(directory: Text, name: Text)
    requires NameOk(name)
    ensures Level(Join(directory, name)) == Level(directory) + 1
  {
    NameHasNone(name);
    JoinFacts(directory, name);
    if directory != ROOT {
      SeparatorsJoin(directory + [SLASH], name);
      SeparatorsJoin(directory, [SLASH]);
      assert [SLASH][1..] == [];
    }
  }

  // Following names adds their number to the level, so a path below a directory is below it by
  // one number of names only.
  lemma {:induction false} LevelOfDown(start: Text, names: seq<Text>)
    requires AreNames(names)
    ensures Level(Down(start, names)) == Level(start) + |names|
  {
    if names != [] {
      LevelOfDown(start, names[..|names| - 1]);
      LevelOfJoin(Down(start, names[..|names| - 1]), names[|names| - 1]);
    }
  }

  // ---- Units ----

  // The path is that of some names below the start, so many.
  ghost predicate LiesAt(start: Text, path: Text, depth: nat) {
    exists names :: AreNames(names) && |names| == depth && path == Down(start, names)
  }

  // The unit lies as many names below the start as its depth says.
  ghost predicate LiesBelow(start: Text, u: Unit) {
    LiesAt(start, u.path, u.depth)
  }

  lemma DepthIsLevel(start: Text, u: Unit)
    requires LiesBelow(start, u)
    ensures Level(u.path) == Level(start) + u.depth
  {
    var names :| AreNames(names) && |names| == u.depth && u.path == Down(start, names);
    LevelOfDown(start, names);
  }

  lemma OneNameMore(start: Text, path: Text, depth: nat, name: Text)
    requires LiesAt(start, path, depth) && NameOk(name)
    ensures LiesAt(start, Join(path, name), depth + 1)
  {
    hide NameOk, Join;
    var names :| AreNames(names) && |names| == depth && path == Down(start, names);
    var longer := names + [name];
    assert longer[..|longer| - 1] == names;
    assert AreNames(longer) && Join(path, name) == Down(start, longer);
  }

  lemma ChildLiesBelow(world: World, start: Text, u: Unit, c: Unit)
    requires WorldOk(world) && u.kind == Dir && u.identity in world.entries && c in Children(world, u)
    requires LiesBelow(start, u)
    ensures LiesBelow(start, c) && c.depth == u.depth + 1
  {
    hide WorldOk, Children, LiesAt, NameOk, Join;
    var e := EntryOf(world, u, c);
    OneNameMore(start, u.path, u.depth, e.name);
  }

  // Everything still to be visited lies below the start, and not too deep.
  ghost predicate InReach(frontier: set<Unit>, start: Text, limit: nat) {
    forall u <- frontier :: LiesBelow(start, u) && 1 <= u.depth <= limit
  }

  lemma VisitInReach(world: World, w: Walk, start: Text, limit: nat)
    requires WalkOk(world, w) && w.frontier != {} && InReach(w.frontier, start, limit) && world.maxDepth <= limit
    ensures InReach(Visit(world, w).frontier, start, limit)
  {
    hide WorldOk, FrontierOk, Children, IsFirst, LiesBelow;
    var u := FirstUnit(world, w.frontier, w.entered);
    FirstFacts(world, w.frontier, w.entered, u);
    forall c | c in Visit(world, w).frontier ensures LiesBelow(start, c) && 1 <= c.depth <= limit {
      if c !in w.frontier {
        ChildLiesBelow(world, start, u, c);
      }
    }
  }

  lemma {:induction false} VisitsInReach(world: World, w: Walk, start: Text, limit: nat, k: nat)
    requires WalkOk(world, w) && InReach(w.frontier, start, limit) && world.maxDepth <= limit
    requires k < |Visits(world, w)|
    ensures LiesBelow(start, Visits(world, w)[k]) && 1 <= Visits(world, w)[k].depth <= limit
    decreases k
  {
    hide WorldOk, FrontierOk, Children, LiesBelow, Visit;
    VisitOk(world, w);
    VisitInReach(world, w, start, limit);
    var u := FirstUnit(world, w.frontier, w.entered);
    if k > 0 {
      VisitsInReach(world, Visit(world, w), start, limit, k - 1);
    }
  }

  // ---- Traversals ----

  // The deepest level below the start that a traversal lists: its limit, but always the entries
  // of the start directory itself if it lists those.
  function DeepestLevel(world: World): nat {
    if world.maxDepth == 0 then 1 else world.maxDepth
  }

  lemma StartInReach(world: World, start: Text, identity: Identity, enumerates: bool)
    requires WorldOk(world) && identity in world.entries
    ensures InReach(StartWalk(world, start, identity, enumerates).frontier, start, DeepestLevel(world))
  {
    hide WorldOk, Children, LiesBelow;
    var u := Unit(start, Dir, identity, 0);
    AtStart(start, u);
    forall c | c in Children(world, u) ensures LiesBelow(start, c) && c.depth == 1 {
      ChildLiesBelow(world, start, u, c);
    }
  }

  lemma AtStart(start: Text, u: Unit)
    requires u.path == start && u.depth == 0
    ensures LiesBelow(start, u)
  {
    assert AreNames([]) && Down(start, []) == start;
  }

  // Everything that a traversal visits lies one name or more below its start, as many as its
  // depth says, and never more than the limit.
  lemma DepthsArePaths(world: World, start: Text, identity: Identity, enumerates: bool, k: nat)
    requires WorldOk(world) && identity in world.entries
    requires var w := StartWalk(world, start, identity, enumerates); WalkOk(world, w) && k < |Visits(world, w)|
    ensures
      var u := Visits(world, StartWalk(world, start, identity, enumerates))[k];
      && LiesBelow(start, u) && 1 <= u.depth <= DeepestLevel(world)
      && Level(u.path) == Level(start) + u.depth
  {
    hide WorldOk, LiesBelow, Level, StartWalk, WalkOk;
    var w := StartWalk(world, start, identity, enumerates);
    StartInReach(world, start, identity, enumerates);
    VisitsInReach(world, w, start, DeepestLevel(world), k);
    DepthIsLevel(start, Visits(world, w)[k]);
  }

  lemma {:induction false} RowsOfUnits(world: World, units: seq<Unit>, lost: seq<bool>, r: Row) returns (k: nat)
    requires WorldOk(world) && |lost| == |units| && r in RowsOf(world, units, lost)
    ensures k < |units| && r in RowsFor(world, units[k]) && r.path == units[k].path
  {
    hide WorldOk, RowsFor;
    if !lost[0] && r in RowsFor(world, units[0]) {
      RowsInPlace(world, {}, {}, units[0]);
      k := 0;
    } else {
      k := RowsOfUnits(world, units[1..], lost[1..], r);
      k := k + 1;
    }
  }

  // No row of a traversal is more names below its start than the limit says.
  lemma RowsWithinDepth(world: World, start: Text, identity: Identity, enumerates: bool, r: Row)
    requires WorldOk(world) && identity in world.entries
    requires var w := StartWalk(world, start, identity, enumerates); WalkOk(world, w) && r in Run(world, w)
    ensures exists names :: AreNames(names) && |names| <= DeepestLevel(world) && r.path == Down(start, names)
    ensures Level(start) <= Level(r.path) <= Level(start) + DeepestLevel(world)
  {
    hide WorldOk, Level, StartWalk, WalkOk, RowsOf, RowsFor, Down;
    var w := StartWalk(world, start, identity, enumerates);
    var units := Visits(world, w);
    RunIsVisits(world, w);
    if r in w.pending {
      OfStart(world, start, identity, enumerates, r);
    } else {
      var k := RowsOfUnits(world, units, NoneLost(units), r);
      DepthsArePaths(world, start, identity, enumerates, k);
    }
  }

  lemma OfStart(world: World, start: Text, identity: Identity, enumerates: bool, r: Row)
    requires WorldOk(world) && identity in world.entries
    requires r in StartWalk(world, start, identity, enumerates).pending
    ensures r.path == start && AreNames([]) && Down(start, []) == start
  {
    hide WorldOk;
    RowsInPlace(world, {}, {}, Unit(start, Dir, identity, 0));
  }

  // A traversal opens a directory exactly if it is not the start itself and the first path to it,
  // in the order of the walk, has fewer names below the start than the limit says.
  lemma OpenedWithinDepth(world: World, start: Text, identity: Identity, enumerates: bool, id: Identity)
    requires WorldOk(world) && identity in world.entries
    requires WalkOk(world, StartWalk(world, start, identity, enumerates))
    ensures
      var w := StartWalk(world, start, identity, enumerates);
      id in Opened(world, w) <==>
        && id != identity && FirstMeeting(world, w, id).Some?
        && Level(FirstMeeting(world, w, id).value.path) < Level(start) + world.maxDepth
  {
    hide WorldOk, Level, WalkOk, FirstMeeting, Opened, LiesBelow;
    var w := StartWalk(world, start, identity, enumerates);
    OpenedByFirstPath(world, w, id);
    StartInReach(world, start, identity, enumerates);
    if FirstMeeting(world, w, id).Some? {
      MeetingIsVisited(world, w, id, start, DeepestLevel(world));
      DepthIsLevel(start, FirstMeeting(world, w, id).value);
    }
  }

  lemma {:induction false} MeetingIsVisited(world: World, w: Walk, id: Identity, start: Text, limit: nat)
    requires WalkOk(world, w) && InReach(w.frontier, start, limit) && world.maxDepth <= limit
    requires FirstMeeting(world, w, id).Some?
    ensures LiesBelow(start, FirstMeeting(world, w, id).value)
    decreases Unmet(world, w), |w.frontier|
  {
    hide WorldOk, FrontierOk, Children, LiesBelow, Visit;
    VisitOk(world, w);
    VisitDecreases(world, w);
    VisitInReach(world, w, start, limit);
    var u := FirstUnit(world, w.frontier, w.entered);
    if !(u.kind == Dir && u.identity == id) {
      MeetingIsVisited(world, Visit(world, w), id, start, limit);
    }
  }

  // ---- What a traversal visits ----

  // The directories that a walk still opens, as they were met.
  ghost function OpenedUnits(world: World, w: Walk): set<Unit>
    requires WalkOk(world, w)
    decreases Unmet(world, w), |w.frontier|
  {
    if w.frontier == {} then {}
    else
      VisitOk(world, w);
      VisitDecreases(world, w);
      var u := FirstUnit(world, w.frontier, w.entered);
      (if Opens(world, w.seen, u) then {u} else {}) + OpenedUnits(world, Visit(world, w))
  }

  // The unit is an entry of the directory that is neither ignored nor left out by the selection,
  // one name further down.
  ghost predicate ListedIn(world: World, d: Unit, c: Unit) {
    d.kind == Dir && d.identity in world.entries &&
    exists e :: e in world.entries[d.identity] && !world.ignores(e) && world.selects(Join(d.path, e.name), e.kind)
                && c == Unit(Join(d.path, e.name), e.kind, e.identity, d.depth + 1)
  }

  // A walk visits its frontier and what is listed in the directories that it opens, and nothing
  // else.
  lemma {:induction false} VisitsAre(world: World, w: Walk, c: Unit)
    requires WalkOk(world, w)
    ensures c in Visits(world, w) <==>
      c in w.frontier || exists d :: d in OpenedUnits(world, w) && ListedIn(world, d, c)
    decreases Unmet(world, w), |w.frontier|
  {
    hide WorldOk, FrontierOk, IsFirst, Children, ListedIn;
    if w.frontier != {} {
      VisitOk(world, w);
      VisitDecreases(world, w);
      var u, next := FirstUnit(world, w.frontier, w.entered), Visit(world, w);
      FirstFacts(world, w.frontier, w.entered, u);
      VisitsAre(world, next, c);
      ChildIsListed(world, u, c);
    }
  }

  lemma ChildIsListed(world: World, u: Unit, c: Unit)
    ensures ListedIn(world, u, c) <==> u.kind == Dir && u.identity in world.entries && c in Children(world, u)
  {
    if u.kind == Dir && u.identity in world.entries {
      forall e | e in world.entries[u.identity]
        ensures Keeps(world, u, e) <==> !world.ignores(e) && world.selects(Join(u.path, e.name), e.kind) {
      }
    }
  }
}
