// Where a traversal meets the page builder: the rows that a traversal yields are in the order in
// which a page must show them, however the traversal is cut into pages.
module PresentedRun {
  import opened TextOrder
  import opened RowOrder
  import opened Walk
  import opened Traversal
  import opened BroadPage

  // Every row of the tree may stand on a page of its family.
  ghost predicate Shows(world: World) {
    forall path: Text, kind: Kind, id: Identity, k: nat :: k < |world.rows(path, kind, id)| ==>
      ValidUnit(world.family, world.rows(path, kind, id)[k])
  }

  lemma RowsForValid(world: World, u: Unit, r: Row)
    requires WorldOk(world) && Shows(world) && r in RowsFor(world, u)
    ensures ValidUnit(world.family, r) && r.path == u.path
  {
    hide ValidUnit;
    RowsInPlace(world, {u}, {}, u);
    var found := world.rows(u.path, u.kind, u.identity);
    CanonicalAscends(found) by { assert RowsOk(found, u.path); }
    assert r in found;
    var k :| 0 <= k < |found| && found[k] == r;
  }

  // Every row of a run may stand on a page.
  lemma RunValid(world: World, w: Walk, r: Row)
    requires WalkOk(world, w) && Shows(world) && r in Run(world, w)
    requires forall s :: s in w.pending ==> ValidUnit(world.family, s)
    ensures ValidUnit(world.family, r)
  {
    hide ValidUnit, Shows, WorldOk, FrontierOk, Reachable, RowsFor, Run;
    RunShowsOnly(world, w, r);
    if r !in w.pending {
      var u :| Reachable(world, w.frontier, u) && r in RowsFor(world, u);
      RowsForValid(world, u, r);
    }
  }

  // The root is shown by its own rows alone.
  lemma {:induction false} RootIsPending(world: World, w: Walk)
    requires WalkOk(world, w)
    requires forall k :: 0 <= k < |w.pending| ==> w.pending[k].path != ROOT
    ensures forall r :: r in Run(world, w) ==> r.path != ROOT
    decreases Unmet(world, w), |w.frontier|
  {
    hide WorldOk, FrontierOk, Children, IsFirst, RowsFor;
    if w.frontier != {} {
      VisitOk(world, w);
      VisitDecreases(world, w);
      var u := FirstUnit(world, w.frontier, w.entered);
      FirstFacts(world, w.frontier, w.entered, u);
      RowsInPlace(world, w.frontier, w.entered, u);
      RootIsPending(world, Visit(world, w));
    }
  }

  lemma UnitsJoin(family: Family, a: seq<Row>, b: seq<Row>)
    requires ValidUnits(family, a) && ValidUnits(family, b)
    requires a != [] && b != [] ==> CompareShown(family, a[|a| - 1], b[0]) < 0
    ensures ValidUnits(family, a + b)
  {
    hide ValidUnit, CompareShown;
    var joined := a + b;
    forall k | 0 < k < |joined| ensures CompareShown(family, joined[k - 1], joined[k]) < 0 {
      if k == |a| {
        assert joined[k - 1] == a[|a| - 1] && joined[k] == b[0];
      } else if k > |a| {
        assert joined[k - 1] == b[k - 1 - |a|] && joined[k] == b[k - |a|];
      }
    }
  }

  // The rows of the start directory: all of one path.
  lemma StartInOrder(world: World, start: Text, identity: Identity)
    requires WorldOk(world) && Shows(world) && identity in world.entries
    requires world.family == SearchTexts ==> TextsDiffer(Canonical(world.rows(start, Dir, identity)))
    ensures var rows := Canonical(world.rows(start, Dir, identity));
            ValidUnits(world.family, rows) && forall k :: 0 <= k < |rows| ==>
              ValidUnit(world.family, rows[k]) && rows[k].path == start
  {
    hide ValidUnit, CompareRows, CompareShown, WorldOk, Shows;
    var u := Unit(start, Dir, identity, 0);
    var rows := Canonical(world.rows(start, Dir, identity));
    RowsInPlace(world, {u}, {}, u);
    assert RowsFor(world, u) == rows;
    forall k | 0 <= k < |rows| ensures ValidUnit(world.family, rows[k]) {
      RowsForValid(world, u, rows[k]);
    }
    TraversalOrder(world.family, rows);
  }

  // The rows after those of the start directory.
  lemma RestInOrder(world: World, start: Text, identity: Identity, enumerates: bool)
    requires WorldOk(world) && Shows(world) && identity in world.entries
    ensures WalkOk(world, StartWalk(world, start, identity, enumerates))
    ensures
      var w := StartWalk(world, start, identity, enumerates);
      var rest := Run(world, w)[|w.pending|..];
      && w.pending <= Run(world, w)
      && ((world.family == SearchTexts ==> TextsDiffer(rest)) ==> ValidUnits(world.family, rest))
      && (forall k :: 0 <= k < |rest| ==>
        rest[k].path != ROOT && (start != ROOT ==> CompareText(start, rest[k].path) < 0))
  {
    hide ValidUnit, CompareRows, CompareShown, WorldOk, Shows, FrontierOk, Children, CompareText, Run;
    AfterStartAscends(world, start, identity, enumerates);
    var w := StartWalk(world, start, identity, enumerates);
    var v := w.(pending := []);
    assert w.pending == w.pending + [] && w.pending[|w.pending|..] == [];
    PendingSuffix(world, w, |w.pending|);
    PendingFirst(world, w, v, w.pending);
    var rest := Run(world, v);
    assert Run(world, w)[|w.pending|..] == rest;
    RootIsPending(world, v);
    if start != ROOT {
      StartBelow(world, start, identity, enumerates);
      RunAbove(world, v, start);
    }
    forall k | 0 <= k < |rest| ensures ValidUnit(world.family, rest[k]) {
      RunValid(world, v, rest[k]);
    }
    if world.family != SearchTexts || TextsDiffer(rest) {
      TraversalOrder(world.family, rest);
    }
  }

  lemma StartBelow(world: World, start: Text, identity: Identity, enumerates: bool)
    requires WorldOk(world) && identity in world.entries && start != ROOT
    ensures forall u <- StartWalk(world, start, identity, enumerates).frontier :: CompareText(start, u.path) < 0
  {
    hide WorldOk, Children;
    var u := Unit(start, Dir, identity, 0);
    forall c | c in Children(world, u) ensures CompareText(start, c.path) < 0 {
      ChildFacts(world, u, c);
    }
  }

  // The rows of a whole traversal are in the order of a page. A search yields nothing for the
  // start directory itself; of a project the start directory comes first.
  lemma RunIsPresentable(world: World, start: Text, identity: Identity, enumerates: bool)
    requires WorldOk(world) && Shows(world) && identity in world.entries
    requires world.family != ProjectEntries ==> world.rows(start, Dir, identity) == []
    ensures WalkOk(world, StartWalk(world, start, identity, enumerates))
    ensures
      var rows := Run(world, StartWalk(world, start, identity, enumerates));
      (world.family == SearchTexts ==> TextsDiffer(rows)) ==> ValidUnits(world.family, rows)
  {
    hide ValidUnit, CompareRows, WorldOk, Shows, Run, CompareShown, WalkOk, CompareText;
    RestInOrder(world, start, identity, enumerates);
    var w := StartWalk(world, start, identity, enumerates);
    var rows := Run(world, w);
    var rest := rows[|w.pending|..];
    if world.family == SearchTexts ==> TextsDiffer(rows) {
      assert rows == w.pending + rest;
      StartInOrder(world, start, identity);
      if w.pending != [] && rest != [] {
        Boundary(world.family, start, w.pending[|w.pending| - 1], rest[0]);
      }
      UnitsJoin(world.family, w.pending, rest);
    }
  }

  lemma Boundary(family: Family, start: Text, l: Row, r: Row)
    requires l.path == start && r.path != ROOT && (start != ROOT ==> CompareText(start, r.path) < 0)
    requires family == ProjectEntries
    ensures CompareShown(family, l, r) < 0
  {
  }

  // Fewer rows in the same place keep the order.
  lemma TailThinned(family: Family, front: seq<Row>, tail: seq<Row>, thin: seq<Row>)
    requires ValidUnits(family, front + tail) && ValidUnits(family, thin) && forall r :: r in thin ==> r in tail
    ensures ValidUnits(family, front + thin)
  {
    hide ValidUnit, CompareShown;
    var whole := front + tail;
    CutIsPresentable(family, whole, 0, |front|);
    assert whole[0..|front|] == front;
    if front != [] && thin != [] {
      assert thin[0] in tail;
      var j :| 0 <= j < |tail| && tail[j] == thin[0];
      UnitsAscend(family, whole, |front| - 1, |front| + j);
    }
    UnitsJoin(family, front, thin);
  }

  // The rows that are left when some visits are lost are in order if all rows are.
  lemma {:induction false} ThinnedInOrder(world: World, family: Family, units: seq<Unit>, lost: seq<bool>)
    requires |lost| == |units| && ValidUnits(family, RowsOf(world, units, NoneLost(units)))
    ensures ValidUnits(family, RowsOf(world, units, lost))
    ensures forall r :: r in RowsOf(world, units, lost) ==> r in RowsOf(world, units, NoneLost(units))
  {
    hide ValidUnits, RowsFor;
    if units != [] {
      var first, all := RowsFor(world, units[0]), RowsOf(world, units, NoneLost(units));
      var tail := RowsOf(world, units[1..], NoneLost(units[1..]));
      assert NoneLost(units)[1..] == NoneLost(units[1..]);
      assert all == first + tail && all[|first|..|all|] == tail;
      CutIsPresentable(family, all, |first|, |all|);
      ThinnedInOrder(world, family, units[1..], lost[1..]);
      var thin := RowsOf(world, units[1..], lost[1..]);
      TailThinned(family, first, tail, thin);
      assert RowsOf(world, units, lost) == (if lost[0] then [] else first) + thin;
      assert [] + thin == thin;
    }
  }

  // A traversal that loses files is still in the order of a page.
  lemma ThinnedRunIsPresentable(world: World, family: Family, w: Walk, lost: seq<bool>)
    requires WalkOk(world, w) && |lost| == |Visits(world, w)| && ValidUnits(family, Run(world, w))
    ensures ValidUnits(family, RunWithout(world, w, lost))
  {
    hide ValidUnits, RowsFor, WalkOk, RowsOf;
    RunIsVisits(world, w);
    var units := Visits(world, w);
    var all, tail := Run(world, w), RowsOf(world, units, NoneLost(units));
    assert all[|w.pending|..|all|] == tail;
    CutIsPresentable(family, all, |w.pending|, |all|);
    ThinnedInOrder(world, family, units, lost);
    TailThinned(family, w.pending, tail, RowsOf(world, units, lost));
  }

  // So is every page of it, wherever the traversal was cut.
  lemma CutIsPresentable(family: Family, rows: seq<Row>, i: nat, j: nat)
    requires ValidUnits(family, rows) && i <= j <= |rows|
    ensures ValidUnits(family, rows[i..j])
  {
    hide ValidUnit, CompareShown;
    var cut := rows[i..j];
    forall k | 0 < k < |cut| ensures CompareShown(family, cut[k - 1], cut[k]) < 0 {
      assert cut[k - 1] == rows[i + k - 1] && cut[k] == rows[i + k];
    }
  }
}
