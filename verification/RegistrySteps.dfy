// What the single steps of the registry do to its storage and to its view, as lemmas about
// values: rolling back, closing, rewriting, installing, appending, the dry run of the
// admission test, the eviction plan, and what all of them leave alone.

module RegistrySteps {
  import opened Wrappers
  import opened Arena
  import opened RegistryModel
  import opened RegistryState

  function Stop(work: Work): Work {
    if work.Computing? then work.(noCommit := true) else Idle
  }

  function Stopped(cell: Cell<EntryRow>): Cell<EntryRow> {
    cell.(row := cell.row.(work := Stop(cell.row.work)))
  }

  lemma StoppedCell(cell: Cell<EntryRow>)
    ensures Stopped(cell) == if cell.row.work.Computing?
            then cell.(row := cell.row.(work := cell.row.work.(noCommit := true))) else cell
    ensures Stopped(cell).row.successor == cell.row.successor
  {
  }

  function StopAll(chain: seq<EntryRow>): (r: seq<EntryRow>)
    ensures |r| == |chain| && forall k :: 0 <= k < |r| ==> r[k] == chain[k].(work := Stop(chain[k].work))
  {
    seq(|chain|, k requires 0 <= k < |chain| => chain[k].(work := Stop(chain[k].work)))
  }

  // A lineage that waits for its last computation before it goes.
  function Rolled(it: Item): Item {
    it.(row := it.row.(flags := RollbackPending), chain := StopAll(it.chain))
  }

  lemma {:induction false} StopAllCounts(chain: seq<EntryRow>, kind: Kind)
    ensures CountWork(StopAll(chain)) == CountWork(chain)
    ensures CountKind(StopAll(chain), kind) == CountKind(chain, kind)
    ensures ChainBytes(StopAll(chain)) == ChainBytes(chain)
  {
    if chain != [] {
      StopAllCounts(chain[..|chain| - 1], kind);
      assert StopAll(chain)[..|chain| - 1] == StopAll(chain[..|chain| - 1]);
    }
  }

  lemma RolledOk(cfg: Config, it: Item)
    requires Accounted(it) && WellRun(cfg, it) && it.row.pins != 0
    ensures Accounted(Rolled(it)) && WellRun(cfg, Rolled(it))
  {
    StopAllCounts(it.chain, Resident);
  }

  lemma RollBackOk(cfg: Config, s: Snap, s': Snap, p: nat)
    requires Ok(cfg, s) && p < |s.order| && s.order[p] < |s.lines| && LineAt(s.lines, s.order[p]).pins != 0
    requires var l, chain := s.order[p], ChainAt(s.chains, s.order[p]);
             && l < |s.lines| && |s'.cells| == |s.cells|
             && s' == s.(cells := s'.cells,
                         lines := s.lines[l := s.lines[l].(row := s.lines[l].row.(flags := RollbackPending))])
             && (forall e :: 0 <= e < |s.cells| ==>
               s'.cells[e] == if e in chain then Stopped(s.cells[e]) else s.cells[e])
    ensures Ok(cfg, s') && Rewritten(s, s', s.order[p]) && Items(s') == Items(s)[p := Rolled(Items(s)[p])]
  {
    hide Ok, Accounted, WellRun, Inverse, Sum, StopAll;
    var l, chain := s.order[p], ChainAt(s.chains, s.order[p]);
    ItemFacts(cfg, s, p);
    ChainFacts(cfg, s, p);
    RollBackRewrites(s, s', p);
    RolledOk(cfg, Items(s)[p]);
    hide Rewritten, ItemOf, Items;
    RewriteOk(cfg, s, s', p);
  }

  lemma StoppedKeepsJobs(a: seq<Cell<EntryRow>>, b: seq<Cell<EntryRow>>, chain: seq<nat>)
    requires |a| == |b| && forall e :: 0 <= e < |a| ==> b[e] == if e in chain then Stopped(a[e]) else a[e]
    ensures SameJobs(a, b)
  {
  }

  lemma RewrittenKeepsJobs(a: seq<Cell<EntryRow>>, e: nat, b: Cell<EntryRow>)
    requires e < |a|
    requires Runs(a[e]) <==> Runs(b)
    requires Runs(b) ==> && a[e].generation == b.generation && a[e].row.work == b.row.work
                         && a[e].row.lineage == b.row.lineage && a[e].row.memo == b.row.memo
    ensures SameJobs(a, a[e := b])
  {
  }

  function AdvancedRow(row: LineageRow, to: Flags, protectedUntil: int): LineageRow {
    row.(flags := to,
         protectedUntil := if protectedUntil > row.protectedUntil then protectedUntil else row.protectedUntil)
  }

  function Advanced(it: Item, to: Flags, protectedUntil: int): Item {
    it.(row := AdvancedRow(it.row, to, protectedUntil))
  }

  lemma RewriteIntro(cfg: Config, s: Snap, s': Snap, p: nat, e: nat, row: EntryRow, line: LineageRow)
    requires Ok(cfg, s) && p < |s.order| && s.order[p] < |s.lines| && e < |s.cells| && s.cells[e].occupied
    requires row.lineage == s.order[p] && SamePlace(row, s.cells[e].row)
    requires line.id == s.lines[s.order[p]].row.id && line.entryHead == s.lines[s.order[p]].row.entryHead
    requires Slots(line) == Slots(s.lines[s.order[p]].row) && line.dynamicBytes == s.lines[s.order[p]].row.dynamicBytes
    requires s' == s.(cells := s.cells[e := s.cells[e].(row := row)],
                      lines := s.lines[s.order[p] := s.lines[s.order[p]].(row := line)])
    requires var it := ItemOf(s, s.order[p]);
             && row.page < |it.chain|
             && var it' := Item(s.order[p], line, it.chain[row.page := row]); Accounted(it') && WellRun(cfg, it')
    ensures Ok(cfg, s')
    ensures Items(s') == Items(s)[p := Item(s.order[p], line, ItemOf(s, s.order[p]).chain[row.page := row])]
  {
    hide Ok, Accounted, WellRun;
    var l := s.order[p];
    ChainEnd(cfg, s, e);
    OkParts(cfg, s);
    hide Items;
    RewriteIsItem(s, s', p, e, row, line);
    ItemFacts(cfg, s, p);
    hide Rewritten, ItemOf, ChainsOk, OrderOk, TokensOk, IdsOk;
    assert Items(s)[p] == ItemOf(s, l) by { ItemAt(s, p); }
    assert ItemOf(s, l).row == s.lines[l].row by { RowOfItem(s, l); }
    RewriteOk(cfg, s, s', p);
  }

  lemma ItemAt(s: Snap, p: nat)
    requires p < |s.order|
    ensures Items(s)[p] == ItemOf(s, s.order[p])
  {
  }

  lemma RowOfItem(s: Snap, l: nat)
    requires l < |s.lines|
    ensures ItemOf(s, l).row == s.lines[l].row
  {
  }

  lemma RewriteIsItem(s: Snap, s': Snap, p: nat, e: nat, row: EntryRow, line: LineageRow)
    requires ChainsOk(s) && p < |s.order| && s.order[p] < |s.lines| && e < |s.cells| && s.cells[e].occupied
    requires row.lineage == s.order[p] && SamePlace(row, s.cells[e].row) && s.order[p] in s.chains
    requires row.page < |s.chains[s.order[p]]| && s.chains[s.order[p]][row.page] == e
    requires line.id == s.lines[s.order[p]].row.id && line.entryHead == s.lines[s.order[p]].row.entryHead
    requires s' == s.(cells := s.cells[e := s.cells[e].(row := row)],
                      lines := s.lines[s.order[p] := s.lines[s.order[p]].(row := line)])
    ensures Rewritten(s, s', s.order[p])
    ensures ItemOf(s', s.order[p]) == Item(s.order[p], line, ItemOf(s, s.order[p]).chain[row.page := row])
  {
    RewriteIsRewritten(s, s', p, e, row, line);
    hide Rewritten;
    var chain := s.chains[s.order[p]];
    forall k | 0 <= k < |chain| && k != row.page ensures chain[k] != e {
      ChainEntry(s, s.order[p], k);
      ChainEntry(s, s.order[p], row.page);
    }
    hide ChainsOk;
    RowRewritten(s.cells, s'.cells, chain, row.page, row);
  }

  lemma RowRewritten(a: seq<Cell<EntryRow>>, b: seq<Cell<EntryRow>>, chain: seq<nat>, k: nat, row: EntryRow)
    requires k < |chain| && chain[k] < |a| && b == a[chain[k] := a[chain[k]].(row := row)]
    requires forall i :: 0 <= i < |chain| && i != k ==> chain[i] != chain[k]
    ensures RowsOf(b, chain) == RowsOf(a, chain)[k := row]
  {
    forall i | 0 <= i < |chain| ensures RowsOf(b, chain)[i] == RowsOf(a, chain)[k := row][i] {
      assert RowsOf(b, chain)[i] == RowAt(b, chain[i]);
    }
  }

  lemma RewriteIsRewritten(s: Snap, s': Snap, p: nat, e: nat, row: EntryRow, line: LineageRow)
    requires p < |s.order| && s.order[p] < |s.lines| && e < |s.cells| && s.order[p] in s.chains
    requires SamePlace(row, s.cells[e].row)
    requires row.page < |s.chains[s.order[p]]| && s.chains[s.order[p]][row.page] == e
    requires line.id == s.lines[s.order[p]].row.id && line.entryHead == s.lines[s.order[p]].row.entryHead
    requires s' == s.(cells := s.cells[e := s.cells[e].(row := row)],
                      lines := s.lines[s.order[p] := s.lines[s.order[p]].(row := line)])
    ensures Rewritten(s, s', s.order[p])
  {
  }

  lemma AdvancedOk(cfg: Config, it: Item, to: Flags, protectedUntil: int)
    requires Accounted(it) && WellRun(cfg, it)
    ensures Accounted(Advanced(it, to, protectedUntil)) && WellRun(cfg, Advanced(it, to, protectedUntil))
  {
  }

  // What a closed registry keeps: its pinned lineages, rolled back.
  function ClosedView(items: seq<Item>): seq<Item> {
    if items == [] then []
    else (if items[0].row.pins != 0 then [Rolled(items[0])] else []) + ClosedView(items[1..])
  }

  lemma RolledTwice(it: Item)
    ensures Rolled(Rolled(it)) == Rolled(it) && Rolled(it).row.pins == it.row.pins && Rolled(it).ref == it.ref
  {
    assert StopAll(StopAll(it.chain)) == StopAll(it.chain);
  }

  lemma {:induction false} ClosedRolled(items: seq<Item>, p: nat)
    requires p < |items| && items[p].row.pins != 0
    ensures ClosedView(items[p := Rolled(items[p])]) == ClosedView(items)
    ensures Rolled(Rolled(items[p])) == Rolled(items[p]) && Rolled(items[p]).row.pins != 0
            && Rolled(items[p]).ref == items[p].ref
  {
    RolledTwice(items[p]);
    var rolled := items[p := Rolled(items[p])];
    if p > 0 {
      ClosedRolled(items[1..], p - 1);
      assert rolled[1..] == items[1..][p - 1 := Rolled(items[p])];
    } else {
      assert rolled[1..] == items[1..];
    }
  }

  lemma {:induction false} ClosedRemoved(items: seq<Item>, p: nat)
    requires p < |items| && items[p].row.pins == 0
    ensures ClosedView(items[..p] + items[p + 1..]) == ClosedView(items)
  {
    var rest := items[..p] + items[p + 1..];
    if p > 0 {
      ClosedRemoved(items[1..], p - 1);
      assert rest[0] == items[0] && rest[1..] == items[1..][..p - 1] + items[1..][p..];
    } else {
      assert rest == items[1..];
    }
  }

  lemma {:induction false} ClosedAll(items: seq<Item>)
    requires forall k :: 0 <= k < |items| ==> items[k].row.pins != 0 && Rolled(items[k]) == items[k]
    ensures ClosedView(items) == items
  {
    if items != [] { ClosedAll(items[1..]); }
  }

  lemma ClosedNone(items: seq<Item>)
    ensures items == [] ==> ClosedView(items) == items
  {
  }

  lemma EmptiedOk(cfg: Config, s: Snap, s': Snap)
    requires Ok(cfg, s) && s.order == [] && Items(s) == []
    requires s' == s.(usedSlots := 0, baseBytes := 0, totalBytes := 0)
    ensures Ok(cfg, s') && Items(s') == []
  {
    SameStructure(s, s');
    hide ChainsOk, OrderOk, TokensOk, IdsOk, Reusable, Items;
  }

  lemma SameStructure(s: Snap, s': Snap)
    requires s' == s.(usedSlots := 0, baseBytes := 0, totalBytes := 0)
    ensures (OrderOk(s) ==> OrderOk(s')) && (TokensOk(s) ==> TokensOk(s')) && (IdsOk(s) ==> IdsOk(s'))
    ensures (ChainsOk(s) ==> ChainsOk(s')) && (Reusable(s) ==> Reusable(s')) && Items(s') == Items(s)
  {
    hide Inverse;
  }

  lemma KeptAdvanced(items: seq<Item>, p: nat, to: Flags, protectedUntil: int)
    requires p < |items| && InPhase(items[p].row) && to != Clear && to != RollbackPending
    ensures KeptBy(items, items[p := Advanced(items[p], to, protectedUntil)], true,
                   if to == Published then {items[p].row.id} else {})
  {
    var it := Advanced(items[p], to, protectedUntil);
    assert SettledItem(items[p]) ==> SettledItem(it);
    hide SettledItem;
    forall x | x in items[p := it] && x.row.flags == Published
      ensures x.row.id in PublishedIds(items) + (if to == Published then {items[p].row.id} else {})
    {
      assert x in items || x == it;
    }
  }

  // cancelWaiter marks the computation of entry k: it may not commit any more.
  function Forbidden(it: Item, k: nat): Item
    requires k < |it.chain|
  {
    it.(chain := it.chain[k := it.chain[k].(work := Stop(it.chain[k].work))])
  }

  lemma ForbiddenOk(cfg: Config, it: Item, k: nat)
    requires Accounted(it) && WellRun(cfg, it) && k < |it.chain|
    ensures Accounted(Forbidden(it, k)) && WellRun(cfg, Forbidden(it, k))
  {
    ChainUpdate(it.chain, k, it.chain[k].(work := Stop(it.chain[k].work)), Resident);
  }

  lemma KeptStarted(items: seq<Item>, p: nat, k: nat, id: nat)
    requires p < |items| && k < |items[p].chain|
    ensures Kept(items, items[p := Started(items[p], k, id)])
  {
    KeptUpdate(items, p, Started(items[p], k, id));
  }

  // Stopped and buried, a computation leaves the lineage settled.
  lemma KeptBuried(items: seq<Item>, p: nat, k: nat)
    requires p < |items| && k < |items[p].chain| && items[p].row.pins > 0
    ensures Kept(items, items[p := Buried(Forbidden(items[p], k), k)])
  {
    KeptUpdate(items, p, Buried(Forbidden(items[p], k), k));
  }

  lemma KeptRolled(items: seq<Item>, p: nat)
    requires p < |items| && items[p].row.pins != 0
    ensures Kept(items, items[p := Rolled(items[p])])
  {
    KeptUpdate(items, p, Rolled(items[p]));
  }

  lemma KeptRest(items: seq<Item>, p: nat)
    requires p < |items|
    ensures Kept(items, items[..p] + items[p + 1..])
  {
    KeptSubset(items, items[..p] + items[p + 1..]);
  }

  lemma KeptTouched(items: seq<Item>, p: nat)
    requires p < |items|
    ensures Kept(items, Fronted(items, p))
  {
    KeptSubset(items, Fronted(items, p));
  }

  lemma KeptRemoved(items: seq<Item>, gone: set<nat>)
    ensures Kept(items, Removed(items, gone))
  {
    RemovedSubset(items, gone);
    KeptSubset(items, Removed(items, gone));
  }

  lemma KeptInstalled(cfg: Config, items: seq<Item>, gone: set<nat>, request: InitialRequest, id: nat, l: nat,
                      entry: nat, now: int)
    ensures KeptBy(items, [NewItem(cfg, request, id, l, entry, now)] + Removed(items, gone), Funded(request), {})
  {
    RemovedSubset(items, gone);
    KeptInFront(items, Removed(items, gone), NewItem(cfg, request, id, l, entry, now), Funded(request));
  }

  // A step of a lineage that shares nothing keeps its credit if it is frugal.
  lemma GrownTame(it: Item, e: nat, child: nat, step: Step, now: int)
    requires it.chain != [] && Growable(it.row, step.use) && Suits(it, step.use)
    ensures SettledItem(it) ==> SettledItem(Grown(it, e, child, step, now))
    ensures Frugal(step.use) && CreditedItem(it) ==> CreditedItem(Grown(it, e, child, step, now))
    ensures Grown(it, e, child, step, now).row.flags == it.row.flags
            && Grown(it, e, child, step, now).row.id == it.row.id
  {
  }

  lemma KeptGrown(items: seq<Item>, p: nat, e: nat, child: nat, step: Step, now: int)
    requires p < |items| && items[p].chain != [] && Growable(items[p].row, step.use) && Suits(items[p], step.use)
    ensures KeptBy(items, [Grown(items[p], e, child, step, now)] + (items[..p] + items[p + 1..]), Frugal(step.use), {})
  {
    hide Grown, Growable, SettledItem, CreditedItem;
    GrownTame(items[p], e, child, step, now);
    KeptInFront(items, items[..p] + items[p + 1..], Grown(items[p], e, child, step, now), Frugal(step.use)) by {
      assert items[p] in items;
    }
  }

  lemma ClosedItem(items: seq<Item>)
    requires items != []
    ensures ClosedView(items) == (if items[0].row.pins != 0 then [Rolled(items[0])] else []) + ClosedView(items[1..])
    ensures items[0].row.pins != 0 ==> Tame(items[0], Rolled(items[0])) && SettledItem(Rolled(items[0]))
  {
  }

  lemma {:induction false} KeptClosed(items: seq<Item>)
    ensures Kept(items, ClosedView(items)) && Settled(ClosedView(items))
  {
    if items != [] {
      hide SettledItem, CreditedItem, Rolled;
      KeptClosed(items[1..]);
      ClosedItem(items);
      ClosedPublished(items);
      assert Credited(items) ==> Credited(items[1..]);
    }
  }

  lemma ClosedPublished(items: seq<Item>)
    requires items != [] && PublishedIds(ClosedView(items[1..])) <= PublishedIds(items[1..])
    ensures PublishedIds(ClosedView(items)) <= PublishedIds(items)
  {
    var rest := ClosedView(items[1..]);
    forall x | x in ClosedView(items) && x.row.flags == Published ensures x.row.id in PublishedIds(items) {
      assert x in rest;
      assert x.row.id in PublishedIds(items[1..]);
    }
  }

  lemma IdleRows(request: InitialRequest, l: nat)
    ensures NewEntry(request, l).work.Idle?
  {
  }

  lemma AppendKeepsJobs(a: seq<Cell<EntryRow>>, e0: nat, e: nat, parent: Cell<EntryRow>, child: Cell<EntryRow>,
                        step: Step)
    requires e0 < |a| && e < |a| && e != e0 && !a[e].occupied && a[e0].row.memo.None?
    requires parent == a[e0].(row := ParentEntry(a[e0].row, e, step.text)) && child.row.work.Idle?
    ensures SameJobs(a, a[e := child][e0 := parent])
  {
  }

  lemma ChildIdle(l: nat, page: nat, parent: nat, step: Step)
    ensures ChildEntry(l, page, parent, step.successor, step.use).work.Idle?
  {
  }

  lemma ParentMemo(row: EntryRow, child: nat, text: string)
    ensures ParentEntry(row, child, text).memo == Some(text)
  {
  }

  lemma ItemFacts(cfg: Config, s: Snap, p: nat)
    requires Ok(cfg, s) && p < |s.order|
    ensures Accounted(Items(s)[p]) && WellRun(cfg, Items(s)[p])
    ensures s.usedSlots <= cfg.maxEntries && s.totalBytes <= cfg.maxTotalBytes
  {
  }

  lemma RollBackRewrites(s: Snap, s': Snap, p: nat)
    requires p < |s.order| && s.order[p] < |s.lines| && |s'.cells| == |s.cells|
    requires var l, chain := s.order[p], ChainAt(s.chains, s.order[p]);
             && s' == s.(cells := s'.cells,
                         lines := s.lines[l := s.lines[l].(row := s.lines[l].row.(flags := RollbackPending))])
             && (forall e :: 0 <= e < |s.cells| ==>
               s'.cells[e] == if e in chain then Stopped(s.cells[e]) else s.cells[e])
             && (forall k :: 0 <= k < |chain| ==> chain[k] < |s.cells|)
    ensures Rewritten(s, s', s.order[p]) && ItemOf(s', s.order[p]) == Rolled(Items(s)[p])
  {
    var l, chain := s.order[p], ChainAt(s.chains, s.order[p]);
    assert RowsOf(s'.cells, chain) == StopAll(RowsOf(s.cells, chain));
  }

  // The state of the dry run with the first n items still to visit: k victims taken, t left.
  ghost predicate DryRun(cfg: Config, items: seq<Item>, base: nat, slots: nat, bytes: nat, now: int, exclude: nat,
                         n: nat, k: nat, t: Totals)
  {
    var v := Victims(items, now, exclude);
    && n <= |items| && k <= |v| && v[k..] == Victims(items[..n], now, exclude)
    && t == TotalsAfter(items, base, now, exclude, k)
    && forall j :: 0 <= j <= k ==> !RoomAfter(cfg, items, base, slots, bytes, now, exclude, j)
  }

  lemma DryRunStart(cfg: Config, s: Snap, slots: nat, bytes: nat, now: int, exclude: nat)
    requires Ok(cfg, s)
    ensures var t := Totals(s.usedSlots, s.tokenLive, s.idLive, s.totalBytes);
            if Fits(cfg, t, slots, bytes)
            then Admissible(cfg, Items(s), s.baseBytes, slots, bytes, now, exclude)
            else DryRun(cfg, Items(s), s.baseBytes, slots, bytes, now, exclude, |s.order|, 0, t)
  {
    hide Items, Accounted, WellRun, ChainsOk, OrderOk, TokensOk, IdsOk, Reusable, Fits;
    var t := Totals(s.usedSlots, s.tokenLive, s.idLive, s.totalBytes);
    assert Items(s)[..|s.order|] == Items(s);
    NoneEvicted(Items(s), s.baseBytes, now, exclude);
    if Fits(cfg, t, slots, bytes) {
      assert RoomAfter(cfg, Items(s), s.baseBytes, slots, bytes, now, exclude, 0);
    }
  }

  lemma OrderBound(cfg: Config, s: Snap)
    requires Ok(cfg, s)
    ensures |s.order| <= cfg.maxEntries
  {
    SumCountsLineages(Items(s));
  }

  lemma NoneEvicted(items: seq<Item>, base: nat, now: int, exclude: nat)
    ensures TotalsAfter(items, base, now, exclude, 0) == Sum(items).(bytes := base + Sum(items).bytes)
  {
    assert Victims(items, now, exclude)[..0] == [];
  }

  lemma DryRunStep(cfg: Config, items: seq<Item>, base: nat, slots: nat, bytes: nat, now: int, exclude: nat,
                   n: nat, k: nat, t: Totals)
    requires DryRun(cfg, items, base, slots, bytes, now, exclude, n, k, t) && n > 0
    ensures n <= |items|
    ensures var it := items[n - 1];
            if Candidate(it, now, exclude)
            then && Covers(t, Weight(it.row))
                 && var t' := Minus(t, Weight(it.row));
                    if Fits(cfg, t', slots, bytes)
                    then Admissible(cfg, items, base, slots, bytes, now, exclude)
                    else DryRun(cfg, items, base, slots, bytes, now, exclude, n - 1, k + 1, t')
            else DryRun(cfg, items, base, slots, bytes, now, exclude, n - 1, k, t)
  {
    hide TotalsAfter, Victims, Fits;
    VictimsNext(items, base, now, exclude, n, k);
    var it := items[n - 1];
    if Candidate(it, now, exclude) && Fits(cfg, Minus(t, Weight(it.row)), slots, bytes) {
      assert RoomAfter(cfg, items, base, slots, bytes, now, exclude, k + 1);
    }
  }

  lemma DryRunEnd(cfg: Config, items: seq<Item>, base: nat, slots: nat, bytes: nat, now: int, exclude: nat, k: nat,
                  t: Totals)
    requires DryRun(cfg, items, base, slots, bytes, now, exclude, 0, k, t)
    ensures !Admissible(cfg, items, base, slots, bytes, now, exclude)
  {
  }

  lemma CountFacts(cfg: Config, s: Snap)
    requires Ok(cfg, s)
    ensures Sum(Items(s)).(bytes := s.baseBytes + Sum(Items(s)).bytes)
            == Totals(s.usedSlots, s.tokenLive, s.idLive, s.totalBytes)
  {
  }

  lemma DistinctView(cfg: Config, s: Snap)
    requires Ok(cfg, s)
    ensures DistinctRefs(Items(s))
  {
    ItemsDistinct(s);
  }

  lemma SomeVictim(items: seq<Item>, now: int, exclude: nat)
    ensures Victims(items, now, exclude) == [] <==> forall j :: 0 <= j < |items| ==> !Candidate(items[j], now, exclude)
  {
    if forall j :: 0 <= j < |items| ==> !Candidate(items[j], now, exclude) {
      NoCandidateNoVictim(items, now, exclude);
    } else {
      var j :| 0 <= j < |items| && Candidate(items[j], now, exclude);
      CandidateIsVictim(items, now, exclude, j);
    }
  }

  lemma {:induction false} CandidateIsVictim(items: seq<Item>, now: int, exclude: nat, j: nat)
    requires j < |items| && Candidate(items[j], now, exclude)
    ensures items[j] in Victims(items, now, exclude)
  {
    if j < |items| - 1 { CandidateIsVictim(items[..|items| - 1], now, exclude, j); }
  }

  // Two positions of a distinct view that hold the same lineage are the same.
  lemma SamePlaceInView(items: seq<Item>, p: nat, q: nat)
    requires DistinctRefs(items) && p < |items| && q < |items| && items[p].ref == items[q].ref
    ensures p == q
  {
  }

  lemma LeastOf(cfg: Config, items: seq<Item>, base: nat, slots: nat, bytes: nat, now: int, exclude: nat)
    returns (k: nat)
    requires Admissible(cfg, items, base, slots, bytes, now, exclude)
    ensures LeastRoom(cfg, items, base, slots, bytes, now, exclude, k) && k <= |Victims(items, now, exclude)|
  {
    var j :| RoomAfter(cfg, items, base, slots, bytes, now, exclude, j);
    k := LeastExists(cfg, items, base, slots, bytes, now, exclude, j);
  }

  // The lineages that k evictions remove.
  ghost function VictimRefs(items: seq<Item>, now: int, exclude: nat, k: nat): set<nat>
    requires k <= |Victims(items, now, exclude)|
  {
    set it | it in Victims(items, now, exclude)[..k] :: it.ref
  }

  // The view after the first k victims are gone.
  ghost predicate Evicted(items: seq<Item>, rest: seq<Item>, now: int, exclude: nat, k: nat) {
    && k <= |Victims(items, now, exclude)|
    && rest == Removed(items, VictimRefs(items, now, exclude, k))
    && Victims(rest, now, exclude) == Victims(items, now, exclude)[k..]
  }

  // Exactly the first victim is gone.
  ghost predicate EvictedOne(items: seq<Item>, rest: seq<Item>, now: int, exclude: nat) {
    var v := Victims(items, now, exclude);
    v != [] && rest == Removed(items, {v[0].ref}) && Victims(rest, now, exclude) == v[1..]
  }

  lemma NothingRemoved(items: seq<Item>, now: int, exclude: nat)
    ensures Evicted(items, items, now, exclude, 0)
  {
    assert VictimRefs(items, now, exclude, 0) == {};
    RemovedNone(items, {});
  }

  lemma OneMoreRemoved(items: seq<Item>, rest: seq<Item>, rest': seq<Item>, now: int, exclude: nat, k: nat)
    requires Evicted(items, rest, now, exclude, k) && EvictedOne(rest, rest', now, exclude)
    ensures Evicted(items, rest', now, exclude, k + 1)
  {
    var v := Victims(items, now, exclude);
    assert v[k..][0] == v[k] && v[k..][1..] == v[k + 1..];
    assert v[..k + 1] == v[..k] + [v[k]];
    assert VictimRefs(items, now, exclude, k + 1) == VictimRefs(items, now, exclude, k) + {v[k].ref};
    RemovedTwice(items, VictimRefs(items, now, exclude, k), {v[k].ref});
  }

  lemma ShrunkRefl(s: Snap)
    ensures Shrunk(s, s)
  {
  }

  // The dry run at the item before position n: the next victim, or one to skip.
  lemma VictimsNext(items: seq<Item>, base: nat, now: int, exclude: nat, n: nat, k: nat)
    requires 0 < n <= |items| && k <= |Victims(items, now, exclude)|
    requires Victims(items, now, exclude)[k..] == Victims(items[..n], now, exclude)
    ensures var v := Victims(items, now, exclude);
            if Candidate(items[n - 1], now, exclude)
            then && k < |v| && v[k] == items[n - 1] && v[k + 1..] == Victims(items[..n - 1], now, exclude)
                 && Covers(TotalsAfter(items, base, now, exclude, k), Weight(items[n - 1].row))
                 && TotalsAfter(items, base, now, exclude, k + 1)
                      == Minus(TotalsAfter(items, base, now, exclude, k), Weight(items[n - 1].row))
            else v[k..] == Victims(items[..n - 1], now, exclude)
  {
    hide Covers, Minus, TotalsAfter;
    var v := Victims(items, now, exclude);
    assert items[..n][..n - 1] == items[..n - 1];
    if Candidate(items[n - 1], now, exclude) {
      assert v[k..][0] == items[n - 1] && v[k..][1..] == v[k + 1..];
      NextTotals(items, base, now, exclude, k);
    }
  }

  lemma NextTotals(items: seq<Item>, base: nat, now: int, exclude: nat, k: nat)
    requires k < |Victims(items, now, exclude)|
    ensures var w := Weight(Victims(items, now, exclude)[k].row);
            && Covers(TotalsAfter(items, base, now, exclude, k), w)
            && TotalsAfter(items, base, now, exclude, k + 1) == Minus(TotalsAfter(items, base, now, exclude, k), w)
  {
    hide Victims;
    VictimsCovered(items, now, exclude, k);
    VictimsCovered(items, now, exclude, k + 1);
    SumNext(Victims(items, now, exclude), k);
    hide Sum;
  }

  lemma SumNext(v: seq<Item>, k: nat)
    requires k < |v|
    ensures Sum(v[..k + 1]) == Plus(Sum(v[..k]), Weight(v[k].row))
  {
    assert v[..k + 1] == v[..k] + [v[k]];
    SumConcat(v[..k], [v[k]]);
    assert Sum([v[k]]) == Weight(v[k].row);
  }

  lemma InstallIntro(cfg: Config, s: Snap, s': Snap, l: nat, e: nat, t: Token, request: InitialRequest, id: nat,
                     now: int)
    requires Ok(cfg, s) && cfg.maxPages >= 2
    requires Fits(cfg, Totals(s.usedSlots, s.tokenLive, s.idLive, s.totalBytes), RequestSlots(request),
                  RequestBytes(request))
    requires l < |s.lines| && e < |s.cells| && !s.lines[l].occupied && !s.cells[e].occupied
    requires t !in s.tokenMap && id !in s.idMap
    requires |s'.lines| == |s.lines| && s'.lines == s.lines[l := s'.lines[l]]
    requires s'.lines[l].occupied && s'.lines[l].generation < MAX_GENERATION
             && s'.lines[l].row == NewRow(cfg, request, id, e, now)
    requires |s'.cells| == |s.cells| && s'.cells == s.cells[e := s'.cells[e]]
    requires s'.cells[e].occupied && s'.cells[e].generation < MAX_GENERATION && s'.cells[e].row == NewEntry(request, l)
    requires s' == s.(cells := s'.cells, lines := s'.lines, order := [l] + s.order, chains := s.chains[l := [e]],
                      tokenOf := s.tokenOf[e := t], tokenMap := s.tokenMap[t := e], idMap := s.idMap[id := l],
                      freeEntries := s'.freeEntries, freeLineages := s'.freeLineages,
                      tokenLive := s.tokenLive + 1, idLive := s.idLive + 1,
                      usedSlots := s.usedSlots + RequestSlots(request),
                          totalBytes := s.totalBytes + RequestBytes(request))
    requires s.freeEntries == s'.freeEntries + 1 && s.freeLineages == s'.freeLineages + 1
    ensures Ok(cfg, s') && Items(s') == [NewItem(cfg, request, id, l, e, now)] + Items(s)
  {
    hide Ok, Items, Accounted, WellRun;
    assert s'.lines[l].row.id == id && s'.lines[l].row.entryHead == e;
    assert Installed(s, s', l, e, t);
    hide Installed, NewRow, NewEntry;
    NewItemOk(cfg, request, id, l, e, now);
    InstallOk(cfg, s, s', l, e, t);
  }

  lemma ExcludedStays(items: seq<Item>, now: int, p: nat, k: nat)
    requires p < |items| && DistinctRefs(items) && k <= |Victims(items, now, items[p].ref)|
    ensures items[p] in Removed(items, VictimRefs(items, now, items[p].ref, k))
  {
    VictimsAreCandidates(items, now, items[p].ref);
    var v := Victims(items, now, items[p].ref)[..k];
    forall it | it in v ensures it.ref != items[p].ref {
      assert it in Victims(items, now, items[p].ref);
    }
    KeptUnlessGone(items, VictimRefs(items, now, items[p].ref, k), p);
  }

  lemma {:induction false} VictimsAreCandidates(items: seq<Item>, now: int, exclude: nat)
    ensures forall it :: it in Victims(items, now, exclude) ==> it in items && Candidate(it, now, exclude)
  {
    if items != [] { VictimsAreCandidates(items[..|items| - 1], now, exclude); }
  }

  lemma {:induction false} KeptUnlessGone(items: seq<Item>, gone: set<nat>, p: nat)
    requires p < |items| && items[p].ref !in gone
    ensures items[p] in Removed(items, gone)
  {
    if p > 0 { KeptUnlessGone(items[1..], gone, p - 1); }
  }

  // The last entry of a lineage closes its chain.
  lemma ChainEnd(cfg: Config, s: Snap, e: nat)
    requires Ok(cfg, s) && Occupied(s.cells, e)
    ensures var row := s.cells[e].row;
            && row.lineage in s.chains && row.page < |s.chains[row.lineage]| && s.chains[row.lineage][row.page] == e
            && (row.successor == NO_REF && |s.cells| <= NO_REF ==> row.page + 1 == |s.chains[row.lineage]|)
  {
    assert Owned(s, e);
    var row := s.cells[e].row;
    ChainEntry(s, row.lineage, row.page);
    if row.page + 1 < |s.chains[row.lineage]| { ChainEntry(s, row.lineage, row.page + 1); }
  }

  // The free cell e takes the child, and the cell e0 holds the parent as rewritten.
  ghost predicate CellsAppended(before: seq<Cell<EntryRow>>, after: seq<Cell<EntryRow>>, e: nat, e0: nat,
                                child: EntryRow, parent: EntryRow)
  {
    && e < |before| && e0 < |before| && |after| == |before|
    && after == before[e := after[e]][e0 := after[e0]]
    && after[e] == Cell(true, before[e].generation, NO_REF, child)
    && after[e0] == before[e0].(row := parent)
  }

  lemma AppendIntro(cfg: Config, s: Snap, s': Snap, p: nat, e0: nat, e: nat, t: Token, step: Step, now: int)
    requires Ok(cfg, s) && p < |s.order| && t !in s.tokenMap && s.order[p] < |s.lines| && s.order[p] in s.chains
    requires e < |s.cells| && e0 < |s.cells| && e != e0 && !s.cells[e].occupied
    requires var chain := s.chains[s.order[p]];
             chain != [] && chain[|chain| - 1] == e0 && s.cells[e0].row.lineage == s.order[p]
               && s.cells[e0].row.page + 1 == |chain|
    requires var it := Items(s)[p];
             && it == ItemOf(s, s.order[p]) && it.chain != [] && it.chain[|it.chain| - 1] == s.cells[e0].row
             && |it.chain| == |s.chains[s.order[p]]|
             && StepAllowed(cfg, it, step.successor, step.text, step.use, now)
             && (step.use.slots == 1 ==> Prepaid(it.row, step.use))
    requires Growable(s.lines[s.order[p]].row, step.use)
    requires step.use.slots != 1 ==>
      Fits(cfg, Totals(s.usedSlots, s.tokenLive, s.idLive, s.totalBytes), 1, step.use.bytes)
    requires |s'.cells| == |s.cells| && s'.cells == s.cells[e := s'.cells[e]][e0 := s'.cells[e0]]
    requires s'.cells[e].occupied && s'.cells[e].generation == s.cells[e].generation < MAX_GENERATION
    requires s'.cells[e].row == ChildEntry(s.order[p], |s.chains[s.order[p]]|, e0, step.successor, step.use)
    requires s'.cells[e0] == s.cells[e0].(row := ParentEntry(s.cells[e0].row, e, step.text))
    requires s'.lines == s.lines[s.order[p] := s.lines[s.order[p]].(row := GrownRow(s.lines[s.order[p]].row, step.use,
          now))]
    requires s' == s.(cells := s'.cells, lines := s'.lines,
                      chains := s.chains[s.order[p] := s.chains[s.order[p]] + [e]],
                      tokenOf := s.tokenOf[e := t], tokenMap := s.tokenMap[t := e],
                      freeEntries := s'.freeEntries, tokenLive := s.tokenLive + 1,
                      usedSlots := s.usedSlots + (if step.use.slots == 1 then 0 else 1), totalBytes := s'.totalBytes)
    requires s.freeEntries == s'.freeEntries + 1
    requires s'.totalBytes == s.totalBytes
             + (if step.use.slots == 1 then 0 else step.use.bytes) - Slack(s.lines[s.order[p]].row, step.use)
    ensures Ok(cfg, s') && Items(s') == Items(s)[p := Grown(Items(s)[p], e0, e, step, now)]
  {
    hide Ok, Items, Accounted, WellRun, StepAllowed, Prepaid, Growable, Slack, Fits, Sum;
    var l, it := s.order[p], Items(s)[p];
    AppendExtends(s, s', p, e0, e, t, step, now);
    assert ChainsOk(s) && OrderOk(s) by { OkParts(cfg, s); }
    hide Extended, ChainsOk, OrderOk;
    ExtendKeepsItems(s, s', p, e, t);
    var it' := Grown(it, e0, e, step, now);
    assert ItemOf(s', l).ref == l && ItemOf(s', l).row == GrownRow(it.row, step.use, now);
    assert ItemOf(s', l) == it';
    ItemFacts(cfg, s, p);
    GrownOk(cfg, it, e0, e, step, now);
    AppendFits(cfg, s, step, it.row);
    hide ItemOf, Grown;
    ExtendOk(cfg, s, s', p, e, t);
  }

  lemma OkParts(cfg: Config, s: Snap)
    requires Ok(cfg, s)
    ensures ChainsOk(s) && OrderOk(s) && TokensOk(s) && IdsOk(s)
  {
  }

  lemma AppendFits(cfg: Config, s: Snap, step: Step, row: LineageRow)
    requires s.usedSlots <= cfg.maxEntries && s.totalBytes <= cfg.maxTotalBytes
    requires step.use.slots != 1 ==>
      Fits(cfg, Totals(s.usedSlots, s.tokenLive, s.idLive, s.totalBytes), 1, step.use.bytes)
    ensures s.usedSlots + (if step.use.slots == 1 then 0 else 1) <= cfg.maxEntries
    ensures s.totalBytes + (if step.use.slots == 1 then 0 else step.use.bytes) - Slack(row, step.use)
            <= cfg.maxTotalBytes
  {
  }

  lemma AppendExtends(s: Snap, s': Snap, p: nat, e0: nat, e: nat, t: Token, step: Step, now: int)
    requires p < |s.order| && t !in s.tokenMap
    requires var l := s.order[p];
             && l < |s.lines| && l in s.chains && s.chains[l] != [] && s.chains[l][|s.chains[l]| - 1] == e0
             && e < |s.cells| && e0 < |s.cells| && e != e0 && !s.cells[e].occupied
             && Growable(s.lines[l].row, step.use)
             && |s'.cells| == |s.cells| && s'.cells == s.cells[e := s'.cells[e]][e0 := s'.cells[e0]]
             && s'.cells[e].occupied && s'.cells[e].generation == s.cells[e].generation < MAX_GENERATION
             && s'.cells[e].row == ChildEntry(l, |s.chains[l]|, e0, step.successor, step.use)
             && s'.cells[e0] == s.cells[e0].(row := ParentEntry(s.cells[e0].row, e, step.text))
             && s'.lines == s.lines[l := s.lines[l].(row := GrownRow(s.lines[l].row, step.use, now))]
             && s'.order == s.order && s'.chains == s.chains[l := s.chains[l] + [e]]
             && s'.tokenOf == s.tokenOf[e := t] && s'.tokenMap == s.tokenMap[t := e] && s'.idMap == s.idMap
             && s'.freeEntries == s.freeEntries - 1 && s'.freeLineages == s.freeLineages
             && s'.tokenLive == s.tokenLive + 1 && s'.idLive == s.idLive && s'.baseBytes == s.baseBytes
    ensures Extended(s, s', p, e, t)
  {
  }

  // A lineage just installed at the front, and its immediate rollback.
  lemma UnpinnedFront(cfg: Config, request: InitialRequest, id: nat, l: nat, entry: nat, now: int)
    ensures var it := NewItem(cfg, request, id, l, entry, now); it.ref == l && it.row.pins == 0
  {
  }

  // What the removal of the lineage at position p needs to know of the storage.
  // The entries of a chain belong to the lineage l.
  ghost predicate AllOf(cells: seq<Cell<EntryRow>>, l: nat, chain: seq<nat>) {
    forall k :: 0 <= k < |chain| ==> Occupied(cells, chain[k]) && cells[chain[k]].row.lineage == l
  }

  // A chain that can be walked and released: linked entries with tokens, none at its last
  // generation.
  ghost predicate Releasable(cells: seq<Cell<EntryRow>>, tokenOf: map<nat, Token>, chain: seq<nat>) {
    forall k :: 0 <= k < |chain| ==>
      && Occupied(cells, chain[k]) && chain[k] in tokenOf
      && cells[chain[k]].row.successor == After(chain, k) && cells[chain[k]].generation < MAX_GENERATION
  }

  lemma ChainFacts(cfg: Config, s: Snap, p: nat)
    requires Ok(cfg, s) && p < |s.order|
    ensures var l, chain := s.order[p], ChainAt(s.chains, s.order[p]);
            && Occupied(s.lines, l) && l in s.chains && s.lines[l].generation < MAX_GENERATION
            && LineAt(s.lines, l).entryHead == HeadOf(chain)
            && Distinct(chain) && |chain| == Entries(s.lines[l].row) <= cfg.maxEntries
            && AllOf(s.cells, l, chain) && Releasable(s.cells, s.tokenOf, chain)
            && Inverse(s.tokenOf, s.tokenMap)
            && s.lines[l].row.id in s.idMap
            && Items(s)[p] == ItemOf(s, l) && Covers(Sum(Items(s)), Weight(Items(s)[p].row))
            && Accounted(Items(s)[p])
            && |s.cells| == |s.lines| == cfg.maxEntries
            && Slots(s.lines[l].row) <= s.usedSlots && s.baseBytes + s.lines[l].row.dynamicBytes <= s.totalBytes
  {
    var l := s.order[p];
    assert l in s.order;
    assert Occupied(s.lines, l) && l in s.chains;
    LinksOf(s, l);
    hide ChainsOk, OrderOk, Inverse, AllOf, Releasable;
    SumSplit(Items(s), p);
    ItemFacts(cfg, s, p);
    hide ItemsOk, WellRun;
  }

  // The links of one chain.
  lemma LinksOf(s: Snap, l: nat)
    requires ChainsOk(s) && Reusable(s) && TokensOk(s) && l in s.chains
    ensures var chain := s.chains[l];
            && Distinct(chain) && LineAt(s.lines, l).entryHead == HeadOf(chain)
            && AllOf(s.cells, l, chain) && Releasable(s.cells, s.tokenOf, chain)
  {
    var chain := s.chains[l];
    forall k | 0 <= k < |chain|
      ensures Occupied(s.cells, chain[k]) && s.cells[chain[k]].row.successor == After(chain, k)
      ensures s.cells[chain[k]].row.page == k && s.cells[chain[k]].row.lineage == l
    {
      ChainEntry(s, l, k);
    }
  }

  lemma WithoutIntro(cfg: Config, s: Snap, s': Snap, p: nat)
    requires Ok(cfg, s) && p < |s.order|
    requires var l, chain := s.order[p], ChainAt(s.chains, s.order[p]);
             && ReleasedAlong(s.cells, s'.cells, chain) && l < |s.lines| && |s'.lines| == |s.lines|
             && Vacated(s.lines[l], s'.lines[l]) && s'.lines == s.lines[l := s'.lines[l]]
             && s'.order == Without(s.order, l) && s'.chains == s.chains - {l}
             && s'.tokenOf == Untold(s.tokenOf, chain) && s'.tokenMap == s.tokenMap - TokensAt(s.tokenOf, chain)
             && s'.idMap == s.idMap - {s.lines[l].row.id}
    requires Uncounted(s, s', p) && Items(s)[p].row.pins == 0
    ensures WithoutLineage(s, s', p)
    ensures Ok(cfg, s') && Items(s') == Items(s)[..p] + Items(s)[p + 1..] && Shrunk(s, s')
            && SameJobs(s.cells, s'.cells)
  {
    hide ChainsOk, TokensOk, IdsOk, Reusable, CountsOk, Shrunk, SameJobs, WellRun;
    assert s'.order == s.order[..p] + s.order[p + 1..] by { WithoutAt(s.order, p); }
    SumSplit(Items(s), p);
    assert WithoutLineage(s, s', p);
    assert Accounted(Items(s)[p]);
    hide WithoutLineage, OrderOk, ItemsOk, Accounted;
    RemoveOk(cfg, s, s', p);
    RemovalShrinks(s, s', p);
    RemovalKeepsJobs(s, s', p);
  }

  // A registry in which nothing is occupied.
  lemma NothingInUse(cfg: Config, s: Snap)
    requires forall i :: 0 <= i < |s.cells| ==> !s.cells[i].occupied
    requires forall i :: 0 <= i < |s.lines| ==> !s.lines[i].occupied
    requires s.order == [] && s.chains == map[] && s.tokenOf == map[] && s.tokenMap == map[] && s.idMap == map[]
    requires s.freeEntries == |s.cells| == cfg.maxEntries && s.freeLineages == |s.lines| == cfg.maxEntries
    requires s.tokenLive == 0 && s.idLive == 0 && s.usedSlots == 0 && s.totalBytes == s.baseBytes <= cfg.maxTotalBytes
    ensures Ok(cfg, s) && Items(s) == []
  {
    assert forall i: nat :: !Occupied(s.cells, i) && !Occupied(s.lines, i);
  }

  // One step of the walk along a chain: its entry is untouched when its turn comes, and the
  // step takes it away.
  lemma NextOfChain(a: seq<Cell<EntryRow>>, b: seq<Cell<EntryRow>>, tokenOf: map<nat, Token>, chain: seq<nat>, k: nat)
    requires k < |chain| && Distinct(chain) && Releasable(a, tokenOf, chain) && ReleasedAlong(a, b, chain[..k])
    ensures chain[k] < |b| && b[chain[k]] == a[chain[k]] && b[chain[k]].occupied
    ensures chain[k] in tokenOf && b[chain[k]].generation < MAX_GENERATION
    ensures b[chain[k]].row.successor == After(chain, k)
  {
    assert chain[k] !in chain[..k];
  }

  // No entry of a chain is numbered like the end mark, so the mark ends the whole walk.
  lemma WalkEnds(cells: seq<Cell<EntryRow>>, tokenOf: map<nat, Token>, chain: seq<nat>, k: nat)
    requires k <= |chain| && |cells| <= NO_REF && Releasable(cells, tokenOf, chain)
    requires HeadOf(chain[k..]) == NO_REF || |chain| <= k
    ensures chain[..k] == chain
  {
  }

  lemma ReleasedNext(a: seq<Cell<EntryRow>>, b: seq<Cell<EntryRow>>, c: seq<Cell<EntryRow>>, chain: seq<nat>, k: nat)
    requires k < |chain| && ReleasedAlong(a, b, chain[..k]) && |c| == |b|
    requires chain[k] < |b| && b[chain[k]] == a[chain[k]] && Vacated(b[chain[k]], c[chain[k]])
    requires c == b[chain[k] := c[chain[k]]]
    ensures ReleasedAlong(a, c, chain[..k + 1])
  {
    assert chain[..k + 1] == chain[..k] + [chain[k]];
  }

  lemma WalkStarts(cells: seq<Cell<EntryRow>>, tokenOf: map<nat, Token>)
    ensures TokensAt(tokenOf, []) == {} && Untold(tokenOf, []) == tokenOf && ReleasedAlong(cells, cells, [])
  {
  }

  lemma TokensNext(tokenOf: map<nat, Token>, chain: seq<nat>, k: nat)
    requires k < |chain| && chain[k] in tokenOf && Distinct(chain)
    ensures TokensAt(tokenOf, chain[..k + 1]) == TokensAt(tokenOf, chain[..k]) + {tokenOf[chain[k]]}
    ensures Untold(tokenOf, chain[..k + 1]) == Untold(tokenOf, chain[..k]) - {chain[k]}
    ensures chain[k] in Untold(tokenOf, chain[..k]) && Untold(tokenOf, chain[..k])[chain[k]] == tokenOf[chain[k]]
  {
    assert chain[..k + 1] == chain[..k] + [chain[k]];
  }

  // ---------------------------------------------------------------- what a step does to the view

  // The lineage l grew by a child and came to the front. A prepaid step leaves all others; any
  // other step evicted the least sufficient number of them.
  ghost predicate SteppedTo(cfg: Config, before: seq<Item>, after: seq<Item>, base: nat, l: nat, parent: nat,
                            child: nat,
                            step: Step, now: int, p: nat, k: nat)
  {
    && p < |before| && before[p].ref == l && before[p].chain != [] && Growable(before[p].row, step.use)
    && var it' := Grown(before[p], parent, child, step, now);
       if step.use.slots == 1
       then after == [it'] + (before[..p] + before[p + 1..])
       else && LeastRoom(cfg, before, base, 1, step.use.bytes, now, l, k) && k <= |Victims(before, now, l)|
            && after == [it'] + Removed(before, VictimRefs(before, now, l, k) + {l})
  }

  // The lineage that steps outlives the eviction and comes to the front with its child.
  lemma GrownInFront(cfg: Config, items: seq<Item>, rest: seq<Item>, after: seq<Item>, base: nat, p: nat, q: nat,
                     parent: nat, child: nat, step: Step, now: int, k: nat)
    requires p < |items| && q < |rest| && rest[q] == items[p] && items[p].chain != [] && step.use.slots != 1
    requires Growable(items[p].row, step.use) && Suits(items[p], step.use)
    requires DistinctRefs(rest) && Evicted(items, rest, now, items[p].ref, k)
    requires LeastRoom(cfg, items, base, 1, step.use.bytes, now, items[p].ref, k)
    requires after == [Grown(items[p], parent, child, step, now)] + (rest[..q] + rest[q + 1..])
    ensures SteppedTo(cfg, items, after, base, items[p].ref, parent, child, step, now, p, k)
    ensures KeptBy(items, after, Frugal(step.use), {})
  {
    hide KeptBy, Grown, Victims, DistinctRefs, Removed, VictimRefs, LeastRoom;
    var gone := VictimRefs(items, now, items[p].ref, k);
    RemovedOne(rest, q);
    RemovedTwice(items, gone, {items[p].ref});
    KeptRemoved(items, gone);
    KeptGrown(rest, q, parent, child, step, now);
    KeptTrans(items, rest, after, true, Frugal(step.use));
  }

  // The lineage at position p is removed, or rolled back while it is pinned.
  function Dropped(items: seq<Item>, p: nat): seq<Item>
    requires p < |items|
  {
    if items[p].row.pins != 0 then items[p := Rolled(items[p])] else items[..p] + items[p + 1..]
  }

  // The lineage l had expired and is gone, or waits for its last pin.
  ghost predicate ExpiredAway(before: seq<Item>, after: seq<Item>, p: nat, l: nat, now: int) {
    && p < |before| && before[p].ref == l && Live(before[p].row.flags) && Expired(before[p].row, now)
    && after == Dropped(before, p)
  }

  function SlackAt(items: seq<Item>, p: nat, use: ReservationUse): nat {
    if p < |items| then Slack(items[p].row, use) else 0
  }
}
