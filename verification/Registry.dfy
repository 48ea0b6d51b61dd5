// The cursor registry of one connection (internal/cursor/registry.go and successor.go).
// Each method is one section held under the registry mutex.

module Registry {
  import opened Wrappers
  import opened Arena
  import opened HashIndex
  import opened RegistryModel
  import opened RegistryState
  import opened RegistrySteps

  datatype CommitOutcome = Committed(lineage: Ref) | Refused(code: Code) | LeaseRefused

  datatype Resolution = Unresolved | Resolved(entry: Ref, lineage: nat)

  datatype Verdict = Refuse(code: Code) | Outlived(lineage: nat) | Proceed(token: Token)

  datatype Materialized = Failed(code: Code) | Child(entry: Ref, token: Token)

  datatype Scoped = Miss(code: Code) | Hit(entry: Ref)

  class Registry {
    const cfg: Config
    const tokens: Index<Token>
    const ids: Index<nat>
    const entries: Store<EntryRow>
    const lineages: Store<LineageRow>
    const lru: RecencyList
    const tokenHome: Token -> nat
    const lineageHome: nat -> nat
    const derive: (Token, nat) -> Token
    var usedSlots: nat
    var baseBytes: nat
    var totalBytes: nat
    var nextLineageId: nat
    var closed: bool
    ghost var chains: map<nat, seq<nat>>
    ghost var tokenOf: map<nat, Token>

    ghost const Repr: set<object> := {this, tokens, tokens.slots, ids, ids.slots, entries, entries.cells,
      lineages, lineages.cells, lru, lru.prev, lru.next}

    // The parts are distinct objects.
    ghost predicate Separated() {
      && tokens as object != ids && tokens.slots as object != ids.slots
      && entries as object != lineages && entries.cells as object != lineages.cells
      && lru.prev != lru.next
    }

    ghost function Snapshot(): Snap
      reads Repr
    {
      Snap(entries.cells[..], lineages.cells[..], lru.order, chains, tokenOf, tokens.contents, ids.contents,
           |entries.free|, |lineages.free|, tokens.live, ids.live, usedSlots, baseBytes, totalBytes)
    }

    // All lineages, most recently used first.
    ghost function View(): seq<Item>
      reads Repr
    {
      Items(Snapshot())
    }

    // Every key has a home in its index.
    ghost predicate Homed() {
      (forall t :: tokenHome(t) < tokens.slots.Length) && forall id :: lineageHome(id) < ids.slots.Length
    }

    lemma HomeInRange(token: Token)
      requires Homed()
      ensures tokenHome(token) < tokens.slots.Length
    {
    }

    // The fixed capacities are those of ContainerLayout.
    ghost predicate Fixed() {
      && tokens.slots.Length >= 2 * cfg.maxEntries && ids.slots.Length >= 2 * cfg.maxEntries
      && entries.vacant == VACANT_ENTRY && lineages.vacant == VACANT_LINEAGE
      && lru.next.Length == lineages.cells.Length
    }

    lemma Roomy()
      requires Fixed()
      ensures cfg.maxEntries <= tokens.slots.Length && cfg.maxEntries <= ids.slots.Length
    {
    }

    // The parts are well formed.
    ghost predicate Parts()
      reads Repr - {this}
    {
      && Separated() && tokens.Valid() && ids.Valid() && entries.Valid() && lineages.Valid() && lru.Valid() && Homed()
      && tokens.homeOf == tokenHome && ids.homeOf == lineageHome && Fixed()
    }

    ghost predicate Valid()
      reads Repr
    {
      && Parts() && Ok(cfg, Snapshot())
      && (forall id :: id in ids.contents ==> id <= nextLineageId)
    }

    // Nothing was ever stored.
    ghost predicate Blank()
      reads this, tokens, ids
    {
      tokens.contents == map[] && ids.contents == map[] && nextLineageId == 0 && usedSlots == 0 && !closed
    }

    // A registry over empty parts.
    constructor (cfg: Config, layoutBytes: nat, tokens: Index<Token>, ids: Index<nat>,
                 entries: Store<EntryRow>, lineages: Store<LineageRow>, lru: RecencyList,
                 tokenHome: Token -> nat, lineageHome: nat -> nat, derive: (Token, nat) -> Token,
                 ghost indexes: set<object>, ghost stores: set<object>)
      requires layoutBytes <= cfg.maxTotalBytes
      requires AreIndexes(tokens, ids, indexes) && AreStores(entries, lineages, lru, stores)
      requires tokens as object != ids && tokens.slots as object != ids.slots
      requires entries as object != lineages && entries.cells as object != lineages.cells && lru.prev != lru.next
      requires tokens.Valid() && ids.Valid() && entries.Valid() && lineages.Valid() && lru.Valid()
      requires tokens.homeOf == tokenHome && ids.homeOf == lineageHome
      requires tokens.slots.Length >= 2 * cfg.maxEntries && ids.slots.Length >= 2 * cfg.maxEntries
      requires forall t :: tokenHome(t) < tokens.slots.Length
      requires forall id :: lineageHome(id) < ids.slots.Length
      requires entries.vacant == VACANT_ENTRY && lineages.vacant == VACANT_LINEAGE
      requires entries.cells.Length == lineages.cells.Length == lru.next.Length == cfg.maxEntries
      requires |entries.free| == |lineages.free| == cfg.maxEntries
      requires tokens.contents == map[] && tokens.live == 0 && ids.contents == map[] && ids.live == 0 && lru.order == []
      requires Unused(entries.cells[..]) && Unused(lineages.cells[..])
      ensures Valid() && Blank() && Renewable() && View() == [] && Repr == {this} + indexes + stores
      ensures this.cfg == cfg && baseBytes == totalBytes == layoutBytes
      ensures this.tokens == tokens && this.ids == ids && this.entries == entries && this.lineages == lineages
              && this.lru == lru
      ensures this.tokenHome == tokenHome && this.lineageHome == lineageHome && this.derive == derive
    {
      hide Index<Token>.Valid, Index<nat>.Valid, Store<EntryRow>.Valid, Store<LineageRow>.Valid, RecencyList.Valid, Ok;
      this.cfg := cfg;
      this.tokens, this.ids, this.entries, this.lineages, this.lru := tokens, ids, entries, lineages, lru;
      this.tokenHome, this.lineageHome, this.derive := tokenHome, lineageHome, derive;
      usedSlots, baseBytes, totalBytes, nextLineageId, closed := 0, layoutBytes, layoutBytes, 0, false;
      chains := map[];
      tokenOf := map[];
      new;
      NothingInUse(cfg, Snapshot());
    }

    static ghost predicate AreIndexes(tokens: Index<Token>, ids: Index<nat>, made: set<object>) {
      made == {tokens, tokens.slots, ids, ids.slots}
    }

    static ghost predicate AreStores(entries: Store<EntryRow>, lineages: Store<LineageRow>, lru: RecencyList,
                                     made: set<object>) {
      made == {entries, entries.cells, lineages, lineages.cells, lru, lru.prev, lru.next}
    }

    // The two indexes, at least twice as large as the arenas.
    static method NewIndexes(size: nat, tokenHome: Token -> nat, lineageHome: nat -> nat)
      returns (tokens: Index<Token>, ids: Index<nat>, ghost made: set<object>)
      ensures fresh(made) && AreIndexes(tokens, ids, made)
      ensures tokens as object != ids && tokens.slots as object != ids.slots
      ensures tokens.Valid() && tokens.homeOf == tokenHome && tokens.contents == map[] && tokens.live == 0
      ensures ids.Valid() && ids.homeOf == lineageHome && ids.contents == map[] && ids.live == 0
      ensures tokens.slots.Length == ids.slots.Length == size
    {
      hide Index<Token>.Valid, Index<nat>.Valid;
      tokens := new Index<Token>(size, tokenHome);
      ids := new Index<nat>(size, lineageHome);
      made := {tokens, tokens.slots, ids, ids.slots};
    }

    // Every cell is free and in its first generation.
    static predicate Unused<T>(cells: seq<Cell<T>>) {
      forall i :: 0 <= i < |cells| ==> !cells[i].occupied && cells[i].generation == 1
    }

    // The arenas and the recency list, empty.
    static method NewStores(size: nat)
      returns (entries: Store<EntryRow>, lineages: Store<LineageRow>, lru: RecencyList, ghost made: set<object>)
      requires 0 < size <= NO_REF
      ensures fresh(made) && AreStores(entries, lineages, lru, made)
      ensures entries as object != lineages && entries.cells as object != lineages.cells && lru.prev != lru.next
      ensures entries.Valid() && entries.vacant == VACANT_ENTRY && |entries.free| == size && Unused(entries.cells[..])
      ensures lineages.Valid() && lineages.vacant == VACANT_LINEAGE && |lineages.free| == size
              && Unused(lineages.cells[..])
      ensures lru.Valid() && lru.order == []
      ensures entries.cells.Length == lineages.cells.Length == lru.next.Length == size
    {
      hide Store<EntryRow>.Valid, Store<LineageRow>.Valid, RecencyList.Valid;
      entries := new Store<EntryRow>(size, VACANT_ENTRY);
      lineages := new Store<LineageRow>(size, VACANT_LINEAGE);
      lru := new RecencyList(size);
      made := {entries, entries.cells, lineages, lineages.cells, lru, lru.prev, lru.next};
    }

    // New and initialize: fixed storage for maxEntries lineages and as many entries, nothing in
    // use.
    static method New(cfg: Config, tokenHome: Token -> nat, lineageHome: nat -> nat, derive: (Token, nat) -> Token)
      returns (r: Option<Registry>)
      requires forall t :: tokenHome(t) < IndexSlots(cfg.maxEntries)
      requires forall id :: lineageHome(id) < IndexSlots(cfg.maxEntries)
      ensures r.Some? <==> Configured(cfg) && LayoutBytes(cfg.maxEntries) <= cfg.maxTotalBytes
      ensures r.Some? ==> r.value.Valid() && fresh(r.value.Repr) && r.value.cfg == cfg && r.value.derive == derive
      ensures r.Some? ==> r.value.Blank() && r.value.Renewable() && r.value.View() == []
      ensures r.Some? ==> r.value.totalBytes == r.value.baseBytes == LayoutBytes(cfg.maxEntries)
    {
      if !Configured(cfg) || LayoutBytes(cfg.maxEntries) > cfg.maxTotalBytes { return None; }
      hide Index<Token>.Valid, Index<nat>.Valid, Store<EntryRow>.Valid, Store<LineageRow>.Valid;
      hide RecencyList.Valid, Ok, LayoutBytes, IndexSlots;
      hide Registry.Valid, Registry.View, Registry.Snapshot, Registry.Blank, Registry.Renewable, Unused;
      hide AreIndexes, AreStores;
      assert IndexSlots(cfg.maxEntries) >= 2 * cfg.maxEntries;
      var tokens, ids;
      var entries, lineages, lru;
      ghost var indexes, stores;
      tokens, ids, indexes := NewIndexes(IndexSlots(cfg.maxEntries), tokenHome, lineageHome);
      entries, lineages, lru, stores := NewStores(cfg.maxEntries);
      var registry := new Registry(cfg, LayoutBytes(cfg.maxEntries), tokens, ids, entries, lineages, lru,
                                   tokenHome, lineageHome, derive, indexes, stores);
      r := Some(registry);
      assert fresh(indexes + stores);
    }

    lemma Place(l: nat) returns (p: nat)
      requires Valid() && l < lineages.cells.Length && lineages.cells[l].occupied
      ensures p < |lru.order| && lru.order[p] == l && l in lru.order && View()[p] == ItemOf(Snapshot(), l)
      ensures View()[p].row == lineages.cells[l].row && View()[p].ref == l
    {
      p := Position(Snapshot(), l);
    }

    lemma Capacity()
      requires Valid()
      ensures entries.cells.Length == lineages.cells.Length == cfg.maxEntries <= NO_REF
    {
    }

    // removeLineageLocked on a lineage no computation pins: exactly it disappears, with its
    // tokens, its cells, its slots and its bytes.
    method RemoveUnpinned(ref: Ref) returns (ok: bool, ghost p: nat)
      requires Valid() && lineages.IsValid(ref) && lineages.cells[ref.index].row.pins == 0
      modifies Repr
      ensures Valid() && ok
      ensures p < |old(View())| && old(View())[p].ref == ref.index
      ensures old(View())[p].row == old(lineages.cells[ref.index].row)
      ensures View() == old(View())[..p] + old(View())[p + 1..]
      ensures Shrunk(old(Snapshot()), Snapshot())
      ensures unchanged(this`closed)
      ensures nextLineageId == old(nextLineageId) && baseBytes == old(baseBytes)
      ensures SameJobs(old(entries.cells[..]), entries.cells[..])
    {
      hide SameJobs;
      hide Index<Token>.Valid, Index<nat>.Valid, Store<EntryRow>.Valid, Store<LineageRow>.Valid, RecencyList.Valid;
      hide Ok, WithoutLineage, Shrunk, Accounted, WellRun, Inverse, TokensAt, Untold, Sum, Releasable, ReleasedAlong;
      ghost var s := Snapshot();
      assert cfg.maxEntries <= NO_REF by { Capacity(); }
      p := Place(ref.index);
      ChainFacts(cfg, s, p);
      ghost var chain := chains[ref.index];
      ok := Dismantle(ref, chain);
      WithoutIntro(cfg, s, Snapshot(), p);
    }

    // ------------------------------------------------------------ looking up

    // lruTouchLocked.
    method TouchLineage(l: nat) returns (ghost p: nat)
      requires Valid() && l < lineages.cells.Length && lineages.cells[l].occupied
      modifies lru, lru.prev, lru.next
      ensures Valid() && p < |old(View())| && old(View())[p].ref == l
      ensures View() == Fronted(old(View()), p)
      ensures Snapshot() == old(Snapshot()).(order := lru.order)
    {
      hide Index<Token>.Valid, Index<nat>.Valid, Store<EntryRow>.Valid, Store<LineageRow>.Valid, RecencyList.Valid;
      hide Ok, Items, Without;
      ghost var s := Snapshot();
      p := Place(l);
      assert |View()| == |lru.order| by { AllVisited(0); }
      lru.Touch(l);
      TouchOk(cfg, s, Snapshot(), p);
    }

    // What is stored with an occupied entry.
    lemma EntryFacts(e: nat) returns (p: nat)
      requires Valid() && e < entries.cells.Length && entries.cells[e].occupied
      ensures var row, l := entries.cells[e].row, entries.cells[e].row.lineage;
              && l < lineages.cells.Length && lineages.cells[l].occupied
              && p < |View()| && View()[p].ref == l && View()[p].row == lineages.cells[l].row
              && row.page < |View()[p].chain| && View()[p].chain[row.page] == row
              && (row.successor == NO_REF <==> row.page + 1 == |View()[p].chain|)
              && row.state.Some? && (row.memo.Some? <==> row.successor != NO_REF)
              && e in tokenOf && tokenOf[e] in tokens.contents && tokens.contents[tokenOf[e]] == e
              && Accounted(View()[p]) && WellRun(cfg, View()[p])
    {
      hide Index<Token>.Valid, Index<nat>.Valid, RecencyList.Valid, FreeList, Outdated, Accounted, IdsOk;
      hide Reusable, CountsOk;
      var s := Snapshot();
      assert Owned(s, e);
      var l := entries.cells[e].row.lineage;
      assert Occupied(s.lines, l);
      p := Position(s, l);
      ChainEntry(s, l, entries.cells[e].row.page);
      hide ChainsOk, OrderOk;
      assert WellRun(cfg, View()[p]);
    }

    // Every occupied entry belongs to a lineage of the view.
    lemma EmptyView(e: nat)
      requires Valid() && e < entries.cells.Length
      ensures entries.cells[e].occupied ==> View() != []
    {
      hide Registry.Valid, View;
      if entries.cells[e].occupied { var p := EntryFacts(e); }
    }

    // The token names an entry of a lineage that is in phase and has not expired.
    ghost predicate Answers(token: Token, now: int)
      reads tokens, entries.cells, lineages.cells
    {
      && token in tokens.contents && tokens.contents[token] < entries.cells.Length
      && var l := entries.cells[tokens.contents[token]].row.lineage;
         l < lineages.cells.Length && Live(lineages.cells[l].row.flags) && !Expired(lineages.cells[l].row, now)
    }

    // The token names an entry of a lineage that is in phase but whose time is over.
    ghost predicate MeetsOverdue(token: Token, now: int)
      reads this, tokens, entries.cells, lineages.cells
    {
      !closed && token in tokens.contents && Overdue(tokens.contents[token], now)
    }

    // resolveLocked: the entry a token stands for, unless the lineage is out of phase or
    // expired; an expired lineage is removed on the way.
    method Resolve(token: Token, now: int) returns (r: Resolution, ghost p: nat)
      requires Valid()
      modifies Repr
      ensures Valid() && closed == old(closed)
      ensures r.Resolved? <==> !old(closed) && old(Answers(token, now))
      ensures r.Resolved? ==>
        && unchanged(Repr) && token in tokens.contents && r.entry.index == tokens.contents[token]
          && entries.IsValid(r.entry)
        && r.lineage == entries.cells[r.entry.index].row.lineage
        && r.lineage < lineages.cells.Length && lineages.cells[r.lineage].occupied
      ensures r.Unresolved? ==>
        if old(MeetsOverdue(token, now))
        then ExpiredAway(old(View()), View(), p, old(LineageOf(tokens.contents[token])), now)
        else unchanged(Repr)
      ensures SameJobs(old(entries.cells[..]), entries.cells[..])
      ensures Kept(old(View()), View())
    {
      hide KeptBy;
      hide SameJobs;
      hide Index<Token>.Valid, Index<nat>.Valid, Store<EntryRow>.Valid, Store<LineageRow>.Valid, RecencyList.Valid;
      hide Registry.Valid, Ok, Snapshot, View, Items, Accounted, WellRun, Rolled, Expired;
      p := 0;
      SameJobsRefl(entries.cells[..]);
      KeptRefl(View(), true, {});
      if closed { return Unresolved, p; }
      ValidIndexes();
      var found := tokens.Lookup(token, tokenHome(token));
      if found.Missing? { return Unresolved, p; }
      var e := found.value;
      TokenFacts(token);
      if e >= entries.cells.Length || !entries.cells[e].occupied { return Unresolved, p; }
      p := EntryFacts(e);
      var l := entries.cells[e].row.lineage;
      if l >= lineages.cells.Length || !lineages.cells[l].occupied { return Unresolved, p; }
      var row := lineages.cells[l].row;
      if !Live(row.flags) { return Unresolved, p; }
      if Expired(row, now) {
        DistinctNow();
        ghost var items, q := View(), 0;
        var removed;
        removed, q := RemoveLineage(Ref(l, lineages.cells[l].generation));
        SamePlaceInView(items, p, q);
        return Unresolved, p;
      }
      return Resolved(Ref(e, entries.cells[e].generation), l), p;
    }

    lemma TokenFacts(token: Token)
      requires Valid() && token in tokens.contents
      ensures tokens.contents[token] < entries.cells.Length && entries.cells[tokens.contents[token]].occupied
      ensures entries.cells[tokens.contents[token]].row.lineage < lineages.cells.Length
    {
      hide Index<Token>.Valid, Index<nat>.Valid, RecencyList.Valid, FreeList, Outdated, ItemsOk, CountsOk, Items;
      assert Owned(Snapshot(), tokens.contents[token]);
    }

    // The token names a live entry of this tool and directory.
    ghost predicate Hits(token: Token, tool: Tool, cwdId: nat, now: int)
      reads this, tokens, entries.cells, lineages.cells
    {
      && !closed && Answers(token, now)
      && var state := entries.cells[tokens.contents[token]].row.state;
         state.Some? && state.value.tool == tool && state.value.cwdId == cwdId
    }

    // Why a lookup misses: the cursor is of no use any more, or of another tool, or of another
    // directory.
    ghost function MissCode(token: Token, tool: Tool, now: int): Code
      reads this, tokens, entries.cells, lineages.cells
    {
      if closed || !Answers(token, now) then CursorExpired
      else
        var state := entries.cells[tokens.contents[token]].row.state;
        if state.None? || state.value.tool != tool then WrongTool else WrongCwd
    }

    // lookupScopedLocked: the tool is checked before the directory, and only a full match
    // refreshes the lineage.
    method LookupScoped(token: Token, tool: Tool, cwdId: nat, now: int) returns (r: Scoped, ghost p: nat)
      requires Valid()
      modifies Repr
      ensures Valid() && closed == old(closed)
      ensures r.Hit? <==> old(Hits(token, tool, cwdId, now))
      ensures r.Miss? ==> r.code == old(MissCode(token, tool, now))
      ensures r.Hit? ==> entries.cells[..] == old(entries.cells[..])
      ensures r.Hit? ==>
        && token in old(tokens.contents) && r.entry.index == old(tokens.contents[token]) && entries.IsValid(r.entry)
        && p < |old(View())| && View() == Fronted(old(View()), p)
        && old(View())[p].ref == entries.cells[r.entry.index].row.lineage
        && var state := entries.cells[r.entry.index].row.state;
           state.Some? && state.value.tool == tool && state.value.cwdId == cwdId
      ensures r.Hit? ==> lineages.cells[..] == old(lineages.cells[..])
      ensures r.Miss? ==>
        if old(MeetsOverdue(token, now))
        then ExpiredAway(old(View()), View(), p, old(LineageOf(tokens.contents[token])), now)
        else unchanged(Repr)
      ensures SameJobs(old(entries.cells[..]), entries.cells[..])
      ensures Kept(old(View()), View())
    {
      hide KeptBy;
      hide SameJobs;
      hide Index<Token>.Valid, Index<nat>.Valid, Store<EntryRow>.Valid, Store<LineageRow>.Valid, RecencyList.Valid;
      hide Registry.Valid, Ok, Snapshot, View, Items, Accounted, WellRun, Rolled, Expired;
      var found;
      found, p := Resolve(token, now);
      if found.Unresolved? { return Miss(CursorExpired), p; }
      var state := entries.cells[found.entry.index].row.state;
      if state.None? || state.value.tool != tool { return Miss(WrongTool), p; }
      if state.value.cwdId != cwdId { return Miss(WrongCwd), p; }
      ghost var items := View();
      p := TouchLineage(found.lineage);
      KeptTouched(items, p);
      return Hit(found.entry), p;
    }

    // ------------------------------------------------------------ installing a lineage

    // No cell is about to reach its last generation.
    ghost predicate Renewable()
      reads entries.cells, lineages.cells
    {
      && (forall i :: 0 <= i < entries.cells.Length ==> entries.cells[i].generation < MAX_GENERATION - 1)
      && (forall i :: 0 <= i < lineages.cells.Length ==> lineages.cells[i].generation < MAX_GENERATION - 1)
    }

    ghost predicate Claimable()
      reads entries.cells, lineages.cells
    {
      && (forall i :: 0 <= i < entries.cells.Length ==> entries.cells[i].generation < MAX_GENERATION)
      && (forall i :: 0 <= i < lineages.cells.Length ==> lineages.cells[i].generation < MAX_GENERATION)
    }

    // The claims and inserts that follow a successful admission: with room, none of them fails.
    method Install(request: InitialRequest, id: nat, token: Token, now: int) returns (lineage: Claim, ghost entry: nat)
      requires Valid() && Claimable() && FitsNow(RequestSlots(request), RequestBytes(request))
      requires RequestError(cfg, request).None? && cfg.maxPages >= 2
      requires token !in tokens.contents && id > nextLineageId
      modifies Repr
      ensures Valid() && lineage.Claimed? && lineages.IsValid(lineage.ref)
      ensures View() == [NewItem(cfg, request, id, lineage.ref.index, entry, now)] + old(View())
      ensures tokens.contents == old(tokens.contents)[token := entry]
      ensures nextLineageId == id && closed == old(closed) && baseBytes == old(baseBytes)
      ensures SameJobs(old(entries.cells[..]), entries.cells[..])
    {
      hide SameJobs;
      hide Index<Token>.Valid, Index<nat>.Valid, Store<EntryRow>.Valid, Store<LineageRow>.Valid, RecencyList.Valid;
      hide Registry.Parts;
      hide Ok, Items, Installed, NewRow, NewEntry, NewItem, RequestBytes, Fits, RequestError;
      ghost var s := Snapshot();
      assert ids.live < cfg.maxEntries && tokens.live < cfg.maxEntries by { RoomLeft(request); }
      FreeCells();
      var l, e := lineages.freeHead, entries.freeHead;
      lineage := Occupy(NewRow(cfg, request, id, e, now), NewEntry(request, l), id, token);
      nextLineageId := id;
      usedSlots := usedSlots + RequestSlots(request);
      totalBytes := totalBytes + RequestBytes(request);
      entry := e;
      InstallIntro(cfg, s, Snapshot(), l, e, token, request, id, now);
      IdleRows(request, l);
      RewrittenKeepsJobs(s.cells, e, entries.cells[e]);
    }

    lemma RoomLeft(request: InitialRequest)
      requires FitsNow(RequestSlots(request), RequestBytes(request))
      ensures ids.live < cfg.maxEntries && tokens.live < cfg.maxEntries
    {
    }

    // Why commitInitial refuses: the first of its checks that fails.
    ghost function CommitRefusal(request: InitialRequest, now: int): Code
      reads Repr
    {
      if RequestError(cfg, request).Some? then RequestError(cfg, request).value
      else if closed then CursorExpired
      else if !Admissible(cfg, View(), baseBytes, RequestSlots(request), RequestBytes(request), now, NO_REF)
        then BudgetExceeded
      else Invariant
    }

    // commitInitial. `token` is the entropy read for the lineage, `transferred` tells whether the
    // caller's work lease accepts the publication. A refusal changes nothing, except that a
    // lease that does not accept leaves the evictions in place.
    method CommitInitial(request: InitialRequest, token: Token, now: int, transferred: bool)
      returns (outcome: CommitOutcome, ghost k: nat, ghost id: nat, ghost entry: nat)
      requires Valid() && Renewable() && cfg.maxPages >= 2
      modifies Repr
      ensures Valid() && closed == old(closed)
      ensures outcome.Refused? <==>
        !(&& RequestError(cfg, request).None? && !old(closed)
          && token !in old(tokens.contents) && old(nextLineageId) != MAX_UINT64
          && Admissible(cfg, old(View()), old(baseBytes), RequestSlots(request), RequestBytes(request), now, NO_REF))
      ensures outcome.Refused? ==> unchanged(Repr) && outcome.code == old(CommitRefusal(request, now))
      ensures !outcome.Refused? ==> (outcome.Committed? <==> transferred)
      ensures !outcome.Refused? ==>
        && LeastRoom(cfg, old(View()), old(baseBytes), RequestSlots(request), RequestBytes(request), now, NO_REF, k)
        && var rest := Removed(old(View()), VictimRefs(old(View()), now, NO_REF, k));
           if transferred
           then View() == [NewItem(cfg, request, id, outcome.lineage.index, entry, now)] + rest
           else View() == rest
      ensures outcome.Committed? ==>
        lineages.IsValid(outcome.lineage) && token in tokens.contents && tokens.contents[token] == entry
      ensures SameJobs(old(entries.cells[..]), entries.cells[..])
      ensures KeptBy(old(View()), View(), Funded(request), {})
    {
      hide KeptBy;
      hide SameJobs;
      hide Index<Token>.Valid, Index<nat>.Valid, Store<EntryRow>.Valid, Store<LineageRow>.Valid;
      hide Registry.Valid, Ok, Snapshot, View, Items, LeastRoom, Admissible, RequestError, NewItem, Removed, VictimRefs;
      k, id, entry := 0, 0, 0;
      SameJobsRefl(entries.cells[..]);
      KeptRefl(View(), Funded(request), {});
      ghost var cells, items := entries.cells[..], View();
      var failed := RequestError(cfg, request);
      if failed.Some? { return Refused(failed.value), k, id, entry; }
      if closed { return Refused(CursorExpired), k, id, entry; }
      var admitted := CanAdmit(RequestSlots(request), RequestBytes(request), now, NO_REF);
      if !admitted { return Refused(BudgetExceeded), k, id, entry; }
      ValidIndexes();
      var clash := tokens.Lookup(token, tokenHome(token));
      if clash.At? { return Refused(Invariant), k, id, entry; }
      if nextLineageId == MAX_UINT64 { return Refused(Invariant), k, id, entry; }
      var lineageId := nextLineageId + 1;
      var known := ids.Lookup(lineageId, lineageHome(lineageId));
      if known.At? { return Refused(Invariant), k, id, entry; }
      var claim;
      claim, k, entry := EvictAndInstall(request, lineageId, token, now);
      if claim.Exhausted? { return Refused(Invariant), k, id, entry; }
      id := lineageId;
      if !transferred {
        ghost var installed, shown := entries.cells[..], View();
        UndoInstall(request, id, entry, now, claim.ref);
        SameJobsTrans(cells, installed, entries.cells[..]);
        KeptTrans(items, shown, View(), Funded(request), true);
        return LeaseRefused, k, id, entry;
      }
      return Committed(claim.ref), k, id, entry;
    }

    // The part of commitInitial after its checks: make room, then claim and install.
    method EvictAndInstall(request: InitialRequest, id: nat, token: Token, now: int)
      returns (claim: Claim, ghost k: nat, ghost entry: nat)
      requires Valid() && Renewable() && cfg.maxPages >= 2
      requires RequestError(cfg, request).None? && token !in tokens.contents && id > nextLineageId
      requires Admissible(cfg, View(), baseBytes, RequestSlots(request), RequestBytes(request), now, NO_REF)
      modifies Repr
      ensures Valid() && closed == old(closed) && claim.Claimed? && lineages.IsValid(claim.ref)
      ensures LeastRoom(cfg, old(View()), old(baseBytes), RequestSlots(request), RequestBytes(request), now, NO_REF, k)
      ensures View() == [NewItem(cfg, request, id, claim.ref.index, entry, now)]
                        + Removed(old(View()), VictimRefs(old(View()), now, NO_REF, k))
      ensures token in tokens.contents && tokens.contents[token] == entry
      ensures SameJobs(old(entries.cells[..]), entries.cells[..])
      ensures KeptBy(old(View()), View(), Funded(request), {})
    {
      hide KeptBy;
      hide SameJobs;
      hide Index<Token>.Valid, Index<nat>.Valid, Store<EntryRow>.Valid, Store<LineageRow>.Valid;
      hide Registry.Valid, Ok, View, Items, LeastRoom, Admissible, RequestError, NewItem, Removed, VictimRefs, Shrunk;
      entry := 0;
      ghost var s, items := Snapshot(), View();
      var evicted;
      evicted, k := EvictUntilFits(RequestSlots(request), RequestBytes(request), now, NO_REF);
      if !evicted { return Exhausted, k, entry; }
      AfterEviction(s, token);
      ghost var evictedCells := entries.cells[..];
      claim, entry := Install(request, id, token, now);
      KeptInstalled(cfg, items, VictimRefs(items, now, NO_REF, k), request, id, claim.ref.index, entry, now);
      SameJobsTrans(s.cells, evictedCells, entries.cells[..]);
    }

    // The work lease refused the publication: the fresh lineage goes again.
    method UndoInstall(ghost request: InitialRequest, ghost id: nat, ghost entry: nat, ghost now: int, ref: Ref)
      requires Valid() && lineages.IsValid(ref) && View() != []
               && View()[0] == NewItem(cfg, request, id, ref.index, entry, now)
      modifies Repr
      ensures Valid() && closed == old(closed) && View() == old(View())[1..]
      ensures SameJobs(old(entries.cells[..]), entries.cells[..])
      ensures Kept(old(View()), View())
    {
      hide KeptBy;
      hide SameJobs;
      hide Registry.Valid, Snapshot, View, Items, NewItem;
      UnpinnedFront(cfg, request, id, ref.index, entry, now);
      DistinctNow();
      var removed;
      ghost var items, q := View(), 0;
      removed, q := RemoveLineage(ref);
      SamePlaceInView(items, 0, q);
    }

    lemma SnapshotCells()
      ensures Snapshot().cells == entries.cells[..]
    {
    }

    lemma OkNow()
      requires Valid()
      ensures Ok(cfg, Snapshot())
    {
    }

    lemma DistinctNow()
      requires Valid()
      ensures DistinctRefs(View())
    {
      DistinctView(cfg, Snapshot());
    }

    lemma ValidIndexes()
      requires Valid()
      ensures tokens.Valid() && ids.Valid() && tokens.homeOf == tokenHome && ids.homeOf == lineageHome
      ensures forall id :: id in ids.contents ==> id <= nextLineageId
    {
    }

    // What a commit relies on after its evictions.
    lemma AfterEviction(s: Snap, token: Token)
      requires Shrunk(s, Snapshot()) && token !in s.tokenMap
      requires forall i :: 0 <= i < |s.cells| ==> s.cells[i].generation < MAX_GENERATION - 1
      requires forall i :: 0 <= i < |s.lines| ==> s.lines[i].generation < MAX_GENERATION - 1
      ensures Claimable() && token !in tokens.contents
    {
      hide Ok;
    }

    // Claim one cell of each arena, write its columns, enter both indexes, attach in front.
    method Occupy(line: LineageRow, row: EntryRow, id: nat, token: Token) returns (lineage: Claim)
      requires Parts() && Claimable() && lineages.free != [] && entries.free != [] && lineages.free[0] !in lru.order
      requires tokens.live < cfg.maxEntries && ids.live < cfg.maxEntries
      requires token !in tokens.contents && id !in ids.contents
      requires lineages.free[0] < lineages.cells.Length && entries.free[0] < entries.cells.Length
      modifies Repr
      ensures Parts()
      ensures var l, e := old(lineages.freeHead), old(entries.freeHead);
              && lineage == Claimed(Ref(l, old(lineages.cells[l].generation))) && lineages.IsValid(lineage.ref)
              && lineages.cells[..] == old(lineages.cells[..])[l := lineages.cells[l]]
              && lineages.cells[l] == Cell(true, old(lineages.cells[l].generation), NO_REF, line)
              && entries.cells[..] == old(entries.cells[..])[e := entries.cells[e]]
              && entries.cells[e] == Cell(true, old(entries.cells[e].generation), NO_REF, row)
              && lru.order == [l] + old(lru.order) && chains == old(chains)[l := [e]]
              && tokenOf == old(tokenOf)[e := token] && tokens.contents == old(tokens.contents)[token := e]
              && ids.contents == old(ids.contents)[id := l]
              && tokens.live == old(tokens.live) + 1 && ids.live == old(ids.live) + 1
      ensures |entries.free| == old(|entries.free|) - 1 && |lineages.free| == old(|lineages.free|) - 1
      ensures closed == old(closed) && nextLineageId == old(nextLineageId) && baseBytes == old(baseBytes)
      ensures usedSlots == old(usedSlots) && totalBytes == old(totalBytes)
    {
      hide Index<Token>.Valid, Index<nat>.Valid, Store<EntryRow>.Valid, Store<LineageRow>.Valid, RecencyList.Valid;
      FreeHeads();
      lineage := lineages.ClaimWith(line);
      if lineage.Exhausted? { return; }
      var claim := entries.ClaimWith(row);
      if claim.Exhausted? { return; }
      var l, e := lineage.ref.index, claim.ref.index;
      EnterIndexes(id, l, token, e);
      lru.AttachFront(l);
      chains := chains[l := [e]];
      tokenOf := tokenOf[e := token];
    }

    lemma FreeHead()
      requires entries.Valid()
      ensures entries.freeHead == HeadOf(entries.free)
      ensures entries.free != [] ==> entries.free[0] < entries.cells.Length
    {
    }

    lemma FreeHeads()
      requires entries.Valid() && lineages.Valid()
      ensures entries.freeHead == HeadOf(entries.free) && lineages.freeHead == HeadOf(lineages.free)
    {
    }

    method EnterIndexes(id: nat, l: nat, token: Token, e: nat)
      requires Separated() && tokens.Valid() && ids.Valid() && tokens.homeOf == tokenHome && ids.homeOf == lineageHome
      requires (forall t :: tokenHome(t) < tokens.slots.Length) && forall i :: lineageHome(i) < ids.slots.Length
      requires tokens.live < tokens.slots.Length && ids.live < ids.slots.Length
      requires token !in tokens.contents && id !in ids.contents
      modifies tokens, tokens.slots, ids, ids.slots
      ensures tokens.Valid() && ids.Valid()
      ensures tokens.contents == old(tokens.contents)[token := e] && tokens.live == old(tokens.live) + 1
      ensures ids.contents == old(ids.contents)[id := l] && ids.live == old(ids.live) + 1
    {
      hide Index<Token>.Valid, Index<nat>.Valid;
      var _ := tokens.Insert(token, e, tokenHome(token));
      var _ := ids.Insert(id, l, lineageHome(id));
    }

    lemma FreeCells()
      requires Valid()
      ensures ids.live < cfg.maxEntries <==> lineages.free != []
      ensures tokens.live < cfg.maxEntries <==> entries.free != []
      ensures entries.freeHead == HeadOf(entries.free) && lineages.freeHead == HeadOf(lineages.free)
      ensures entries.free != [] ==> entries.free[0] < entries.cells.Length && !entries.cells[entries.free[0]].occupied
      ensures lineages.free != [] ==>
        lineages.free[0] < lineages.cells.Length && !lineages.cells[lineages.free[0]].occupied
                                      && lineages.free[0] !in lru.order
    {
      hide Index<Token>.Valid, Index<nat>.Valid, RecencyList.Valid, Outdated, ChainsOk, TokensOk, IdsOk;
      hide Reusable, ItemsOk;
    }

    // ------------------------------------------------------------ stepping a lineage

    // All that materializeSuccessor demands. A prepaid step (slots == 1) needs its reservation;
    // any other step needs room, if necessary at the expense of other lineages, and a free
    // entry cell, which the program looks for before it evicts anything.
    ghost predicate CanStep(e: nat, step: Step, now: int)
      reads Repr
    {
      && e < entries.cells.Length && entries.cells[e].occupied && e in tokenOf
      && var row, it := entries.cells[e].row, ItemOf(Snapshot(), entries.cells[e].row.lineage);
      && row.successor == NO_REF && row.memo.None? && it.chain != []
      && StepAllowed(cfg, it, step.successor, step.text, step.use, now)
      && derive(tokenOf[e], step.successor.digest) !in tokens.contents
      && if step.use.slots == 1 then Prepaid(it.row, step.use)
         else && !step.use.mustTerminalize && entries.free != []
              && Admissible(cfg, View(), baseBytes, 1, step.use.bytes, now, row.lineage)
    }

    // The entry's lineage is in phase, but its time is over.
    ghost predicate Overdue(e: nat, now: int)
      reads entries.cells, lineages.cells
    {
      var line := LineAt(lineages.cells[..], LineageOf(e));
      Live(line.flags) && Expired(line, now)
    }

    // The checks of materializeSuccessor reach the clock, which has run out.
    ghost predicate FindsOverdue(parent: Ref, step: Step, now: int)
      reads this, entries, entries.cells, lineages.cells
    {
      StepMalformed(step).None? && !closed && entries.IsValid(parent) && Overdue(parent.index, now)
    }

    // Why a step is refused.
    ghost function StepRefusal(parent: Ref, step: Step, now: int): Code
      reads Repr
    {
      if StepMalformed(step).Some? then StepMalformed(step).value
      else if closed || !entries.IsValid(parent) then CursorExpired
      else
        var row, line := RowAt(entries.cells[..], parent.index), LineAt(lineages.cells[..], LineageOf(parent.index));
        if !Live(line.flags) || Expired(line, now) then CursorExpired
        else if StepObjection(cfg, line, row, step, now).Some? then StepObjection(cfg, line, row, step, now).value
        else if step.use.slots == 1 then Invariant
        else if step.use.mustTerminalize
                || !Admissible(cfg, View(), baseBytes, 1, step.use.bytes, now, row.lineage) then BudgetExceeded
        else Invariant
    }

    // The checks of materializeSuccessor, in its order. Nothing is changed here.
    method CheckStep(parent: Ref, step: Step, now: int) returns (verdict: Verdict)
      requires Valid()
      ensures verdict.Proceed? <==> !closed && entries.IsValid(parent) && CanStep(parent.index, step, now)
      ensures verdict.Proceed? ==>
        parent.index in tokenOf && verdict.token == derive(tokenOf[parent.index], step.successor.digest)
      ensures verdict.Outlived? <==> FindsOverdue(parent, step, now)
      ensures verdict.Outlived? ==>
        && verdict.lineage == LineageOf(parent.index)
        && verdict.lineage < lineages.cells.Length && lineages.cells[verdict.lineage].occupied
      ensures verdict.Refuse? ==> verdict.code == StepRefusal(parent, step, now)
    {
      hide Index<Token>.Valid, Index<nat>.Valid, Store<EntryRow>.Valid, Store<LineageRow>.Valid, RecencyList.Valid;
      hide Registry.Valid, Ok, View, Items, Accounted, Admissible, Expired, StepMalformed, StepObjection, StepAllowed;
      var use := step.use;
      var malformed := StepMalformed(step);
      MalformedIsRefused(cfg, ItemOf(Snapshot(), LineageOf(parent.index)), step, now);
      if malformed.Some? { return Refuse(malformed.value); }
      if closed || !entries.IsValid(parent) { return Refuse(CursorExpired); }
      ghost var p := EntryFacts(parent.index);
      var row := entries.cells[parent.index].row;
      var line := lineages.cells[row.lineage].row;
      ghost var it := ItemOf(Snapshot(), row.lineage);
      assert it == View()[p] by { SameItem(p, row.lineage); }
      ObjectionsDecide(cfg, it, step, now);
      if !Live(line.flags) { return Refuse(CursorExpired); }
      if Expired(line, now) { return Outlived(row.lineage); }
      var objection := StepObjection(cfg, line, row, step, now);
      ObjectionsMean(cfg, line, row, step, now);
      if objection.Some? { return Refuse(objection.value); }
      if use.slots == 1 {
        if line.reservedSlots == 0 || use.bytes > line.reservedBytes { return Refuse(Invariant); }
        ReservedCell(p);
        if use.kind != BroadSummaryFinal && line.reservedSlots == 1
          && use.bytes != line.reservedBytes { return Refuse(Invariant); }
      } else {
        if line.shared.Some? || use.mustTerminalize { return Refuse(BudgetExceeded); }
        var admitted := CanAdmit(1, use.bytes, now, row.lineage);
        if !admitted { return Refuse(BudgetExceeded); }
      }
      verdict := CheckChildToken(parent.index, step);
    }

    // The token of a child, derived from its parent's, unless it is in use.
    method DeriveChild(e: nat, digest: nat) returns (child: Option<Token>)
      requires Valid() && e < entries.cells.Length && entries.cells[e].occupied
      ensures e in tokenOf
      ensures child == if derive(tokenOf[e], digest) in tokens.contents then None else Some(derive(tokenOf[e], digest))
    {
      hide Index<Token>.Valid, Index<nat>.Valid, Store<EntryRow>.Valid, Store<LineageRow>.Valid, RecencyList.Valid;
      hide Registry.Valid, Ok;
      ValidIndexes();
      TokenOfEntry(e);
      var found, slot := tokens.KeyOf(e);
      if !found { return None; }
      var token := derive(tokens.slots[slot].key, digest);
      var clash := tokens.Lookup(token, tokenHome(token));
      return if clash.At? then None else Some(token);
    }

    // The last checks: the child's token is unused, and an entry cell is free.
    method CheckChildToken(e: nat, step: Step) returns (verdict: Verdict)
      requires Valid() && e < entries.cells.Length && entries.cells[e].occupied && e in tokenOf
      ensures verdict == Refuse(Invariant) || verdict.Proceed?
      ensures verdict.Proceed? <==> derive(tokenOf[e], step.successor.digest) !in tokens.contents && entries.free != []
      ensures verdict.Proceed? ==> verdict.token == derive(tokenOf[e], step.successor.digest)
    {
      hide Index<Token>.Valid, Index<nat>.Valid, Store<EntryRow>.Valid, Store<LineageRow>.Valid, RecencyList.Valid;
      hide Registry.Valid, Ok;
      var child := DeriveChild(e, step.successor.digest);
      if child.None? { return Refuse(Invariant); }
      FreeCells();
      Capacity();
      if entries.freeHead == NO_REF { return Refuse(Invariant); }
      return Proceed(child.value);
    }

    // A lineage that holds a reserved slot always finds a free entry cell.
    lemma ReservedCell(p: nat)
      requires Valid() && p < |View()| && View()[p].row.reservedSlots > 0
      ensures entries.free != []
    {
      hide Index<Token>.Valid, Index<nat>.Valid, Store<EntryRow>.Valid, Store<LineageRow>.Valid;
      hide RecencyList.Valid, Items;
      ReservedCounts(View(), p);
      hide ChainsOk, OrderOk, TokensOk, IdsOk, Reusable, ItemsOk, Sum;
    }

    lemma TokenOfEntry(e: nat)
      requires Valid() && e < entries.cells.Length && entries.cells[e].occupied
      ensures e in tokenOf && tokenOf[e] in tokens.contents && tokens.contents[tokenOf[e]] == e
      ensures forall t :: t in tokens.contents && tokens.contents[t] == e ==> t == tokenOf[e]
    {
      assert Occupied(Snapshot().cells, e);
    }

    lemma SameItem(p: nat, l: nat)
      requires Valid() && p < |View()| && View()[p].ref == l
      ensures View()[p] == ItemOf(Snapshot(), l)
    {
      hide Ok, ItemOf;
      assert p < |lru.order| by { AllVisited(0); }
      ViewAt(p);
    }

    // Claim a cell for the child and write both entries.
    method LinkEntries(e0: nat, child: EntryRow, parent: EntryRow) returns (claim: Claim)
      requires entries.Valid() && entries.free != [] && entries.free[0] != e0 && e0 < entries.cells.Length
      requires forall i :: 0 <= i < entries.cells.Length ==> entries.cells[i].generation < MAX_GENERATION
      modifies entries, entries.cells
      ensures entries.Valid()
      ensures claim.Claimed? && claim.ref.index == old(entries.freeHead) && entries.IsValid(claim.ref)
      ensures CellsAppended(old(entries.cells[..]), entries.cells[..], claim.ref.index, e0, child, parent)
      ensures |entries.free| == old(|entries.free|) - 1
    {
      hide Store<EntryRow>.Valid;
      FreeHead();
      claim := entries.ClaimWith(child);
      if claim.Exhausted? { return; }
      entries.Write(e0, parent);
    }

    // Write the lineage and enter the child's token.
    method EnterChild(l: nat, line: LineageRow, token: Token, e: nat)
      requires lineages.Valid() && tokens.Valid() && tokens.homeOf == tokenHome && Homed()
      requires l < lineages.cells.Length && token !in tokens.contents && tokens.live < tokens.slots.Length
      modifies lineages.cells, tokens, tokens.slots
      ensures lineages.Valid() && tokens.Valid()
      ensures lineages.cells[..] == old(lineages.cells[..])[l := old(lineages.cells[l]).(row := line)]
      ensures tokens.contents == old(tokens.contents)[token := e] && tokens.live == old(tokens.live) + 1
    {
      hide Index<Token>.Valid, Store<LineageRow>.Valid, Homed;
      HomeInRange(token);
      lineages.Write(l, line);
      var _ := tokens.Insert(token, e, tokenHome(token));
    }

    // Claim a cell for the child, write both entries and the lineage, enter the token.
    method AppendCells(e0: nat, l: nat, child: EntryRow, parent: EntryRow, line: LineageRow, token: Token)
      returns (claim: Claim)
      requires Parts() && Claimable() && entries.free != [] && entries.free[0] < entries.cells.Length
               && entries.free[0] != e0
      requires e0 < entries.cells.Length && l < lineages.cells.Length && l in chains
      requires tokens.live < cfg.maxEntries && token !in tokens.contents
      modifies Repr - {lru, lru.prev, lru.next, ids, ids.slots}
      ensures Parts()
      ensures claim.Claimed? && claim.ref.index == old(entries.freeHead) && entries.IsValid(claim.ref)
      ensures CellsAppended(old(entries.cells[..]), entries.cells[..], claim.ref.index, e0, child, parent)
      ensures var e := claim.ref.index;
              && lineages.cells[..] == old(lineages.cells[..])[l := old(lineages.cells[l]).(row := line)]
              && chains == old(chains)[l := old(chains)[l] + [e]]
              && tokenOf == old(tokenOf)[e := token] && tokens.contents == old(tokens.contents)[token := e]
              && tokens.live == old(tokens.live) + 1 && |entries.free| == old(|entries.free|) - 1
      ensures |lineages.free| == old(|lineages.free|)
      ensures closed == old(closed) && nextLineageId == old(nextLineageId) && baseBytes == old(baseBytes)
      ensures usedSlots == old(usedSlots) && totalBytes == old(totalBytes)
    {
      hide Index<Token>.Valid, Index<nat>.Valid, Store<EntryRow>.Valid, Store<LineageRow>.Valid, RecencyList.Valid;
      hide Homed, Fixed, CellsAppended;
      claim := LinkEntries(e0, child, parent);
      if claim.Exhausted? { return; }
      var e := claim.ref.index;
      Roomy();
      EnterChild(l, line, token, e);
      chains := chains[l := chains[l] + [e]];
      tokenOf := tokenOf[e := token];
    }

    // What a step may rely on once it is admitted: the entry is the last of its lineage, the
    // step is allowed, and it is prepaid or fits.
    ghost predicate CanAppend(e: nat, step: Step, now: int)
      reads Repr
    {
      && e < entries.cells.Length && entries.cells[e].occupied
      && var row, it := entries.cells[e].row, ItemOf(Snapshot(), entries.cells[e].row.lineage);
      && row.successor == NO_REF && it.chain != []
      && StepAllowed(cfg, it, step.successor, step.text, step.use, now)
      && if step.use.slots == 1 then Prepaid(it.row, step.use) else FitsNow(1, step.use.bytes)
    }

    // A prepaid step gives its slack back; any other step is charged in full.
    method Charge(line: LineageRow, use: ReservationUse)
      requires use.slots == 1 ==> totalBytes >= Slack(line, use)
      modifies this`usedSlots, this`totalBytes
      ensures usedSlots == old(usedSlots) + (if use.slots == 1 then 0 else 1)
      ensures totalBytes == old(totalBytes) + (if use.slots == 1 then 0 else use.bytes) - Slack(line, use)
    {
      if use.slots == 1 {
        totalBytes := totalBytes - Slack(line, use);
      } else {
        usedSlots := usedSlots + 1;
        totalBytes := totalBytes + use.bytes;
      }
    }

    // The writes of materializeSuccessor, all but the touch.
    method Append(e0: nat, step: Step, now: int, token: Token) returns (claim: Claim, ghost p: nat)
      requires Valid() && Claimable() && CanAppend(e0, step, now) && entries.free != [] && token !in tokens.contents
      requires e0 < entries.cells.Length
      modifies Repr
      ensures Valid() && claim.Claimed? && entries.IsValid(claim.ref)
      ensures entries.cells[e0].row.memo == Some(step.text)
      ensures p < |old(View())| && old(View())[p].ref == old(entries.cells[e0].row.lineage)
              && old(View())[p].chain != []
      ensures Growable(old(View())[p].row, step.use) && Suits(old(View())[p], step.use)
      ensures View() == old(View())[p := Grown(old(View())[p], e0, claim.ref.index, step, now)]
      ensures old(View())[p].ref < lineages.cells.Length && lineages.cells[old(View())[p].ref].occupied
      ensures tokens.contents == old(tokens.contents)[token := claim.ref.index]
      ensures usedSlots == old(usedSlots) + (if step.use.slots == 1 then 0 else 1)
      ensures totalBytes == old(totalBytes)
              + (if step.use.slots == 1 then 0 else step.use.bytes) - Slack(old(View())[p].row, step.use)
      ensures closed == old(closed) && nextLineageId == old(nextLineageId) && baseBytes == old(baseBytes)
      ensures SameJobs(old(entries.cells[..]), entries.cells[..])
    {
      hide SameJobs;
      hide Index<Token>.Valid, Index<nat>.Valid, Store<EntryRow>.Valid, Store<LineageRow>.Valid, RecencyList.Valid;
      hide Registry.Parts;
      hide Ok, Items, Accounted, WellRun, StepAllowed, GrownRow, Grown, ChildEntry, ParentEntry, Extended;
      hide Fits, Growable, CanAppend;
      ghost var s := Snapshot();
      p := AppendFacts(e0, step, now);
      AllowedSuits(cfg, View()[p], step, now);
      var row := entries.cells[e0].row;
      var l := row.lineage;
      var line := lineages.cells[l].row;
      claim := AppendCells(e0, l, ChildEntry(l, row.page + 1, e0, step.successor, step.use),
                           ParentEntry(row, entries.freeHead, step.text), GrownRow(line, step.use, now), token);
      Charge(line, step.use);
      AppendIntro(cfg, s, Snapshot(), p, e0, claim.ref.index, token, step, now);
      ChildIdle(l, row.page + 1, e0, step);
      ParentMemo(row, claim.ref.index, step.text);
      AppendKeepsJobs(s.cells, e0, claim.ref.index, entries.cells[e0], entries.cells[claim.ref.index], step);
    }

    // The lineage that an entry belongs to.
    ghost function LineageOf(e: nat): nat
      reads entries.cells
    {
      RowAt(entries.cells[..], e).lineage
    }

    // materializeSuccessor: memoize the result of the parent and append its child, as one
    // step of the lineage, which becomes the most recently used. A prepaid step evicts nobody
    // and keeps the slots; any other step first evicts the least sufficient number of other
    // lineages. A refusal changes nothing, unless it finds the lineage expired.
    method Materialize(parent: Ref, step: Step, now: int) returns (r: Materialized, ghost p: nat, ghost k: nat)
      requires Valid() && Renewable()
      modifies Repr
      ensures Valid() && closed == old(closed)
      ensures r.Child? <==> !old(closed) && old(entries.IsValid(parent)) && old(CanStep(parent.index, step, now))
      ensures r.Child? ==>
        SteppedTo(cfg, old(View()), View(), old(baseBytes), old(LineageOf(parent.index)), parent.index, r.entry.index,
                  step, now, p, k)
      ensures r.Child? ==>
        && entries.IsValid(r.entry) && parent.index in old(tokenOf)
        && r.token == derive(old(tokenOf)[parent.index], step.successor.digest)
        && r.token in tokens.contents && tokens.contents[r.token] == r.entry.index
        && RowAt(entries.cells[..], parent.index).memo == Some(step.text)
      ensures r.Child? && step.use.slots == 1 ==>
        && usedSlots == old(usedSlots) && totalBytes == old(totalBytes) - SlackAt(old(View()), p, step.use)
        && tokens.contents == old(tokens.contents)[r.token := r.entry.index]
      ensures r.Failed? ==>
        && r.code == old(StepRefusal(parent, step, now))
        && if old(FindsOverdue(parent, step, now))
           then ExpiredAway(old(View()), View(), p, old(LineageOf(parent.index)), now)
           else unchanged(Repr)
      ensures SameJobs(old(entries.cells[..]), entries.cells[..])
      ensures KeptBy(old(View()), View(), Frugal(step.use), {})
    {
      hide KeptBy;
      hide SameJobs;
      hide Index<Token>.Valid, Index<nat>.Valid, Store<EntryRow>.Valid, Store<LineageRow>.Valid, RecencyList.Valid;
      hide Registry.Valid, Ok, View, Items, Accounted, WellRun, CanStep, CanAppend, Grown, Growable;
      hide Admissible, LeastRoom;
      hide Removed, VictimRefs, Rolled, Expired, Shrunk, Slack;
      p, k := 0, 0;
      SameJobsRefl(entries.cells[..]);
      KeptRefl(View(), Frugal(step.use), {});
      var verdict := CheckStep(parent, step, now);
      match verdict {
        case Refuse(code) => return Failed(code), p, k;
        case Outlived(l) =>
          DistinctNow();
          ghost var items := View();
          ghost var q := EntryFacts(parent.index);
          var removed;
          removed, p := RemoveLineage(Ref(l, lineages.cells[l].generation));
          SamePlaceInView(items, q, p);
          KeptWeakens(items, View(), Frugal(step.use));
          return Failed(CursorExpired), p, k;
        case Proceed(token) =>
          if step.use.slots == 1 {
            r, p := StepPrepaid(parent.index, step, now, token);
          } else {
            r, p, k := StepAdmitted(parent.index, step, now, token);
          }
      }
    }

    // A prepaid step: no eviction, no new slot, and no new byte.
    method StepPrepaid(e: nat, step: Step, now: int, token: Token) returns (r: Materialized, ghost p: nat)
      requires Valid() && Renewable() && CanStep(e, step, now) && step.use.slots == 1
      requires token == derive(tokenOf[e], step.successor.digest)
      modifies Repr
      ensures Valid() && closed == old(closed) && r.Child? && r.token == token && entries.IsValid(r.entry)
      ensures RowAt(entries.cells[..], e).memo == Some(step.text)
      ensures SteppedTo(cfg, old(View()), View(), old(baseBytes), old(LineageOf(e)), e, r.entry.index, step, now, p, 0)
      ensures usedSlots == old(usedSlots) && totalBytes == old(totalBytes) - SlackAt(old(View()), p, step.use)
      ensures tokens.contents == old(tokens.contents)[token := r.entry.index]
      ensures SameJobs(old(entries.cells[..]), entries.cells[..])
      ensures KeptBy(old(View()), View(), Frugal(step.use), {})
    {
      hide KeptBy;
      hide SameJobs;
      hide Index<Token>.Valid, Index<nat>.Valid, Store<EntryRow>.Valid, Store<LineageRow>.Valid, RecencyList.Valid;
      hide Registry.Valid, Ok, View, Items, CanStep, CanAppend, Grown, Growable, Slack;
      ghost var items := View();
      PrepaidAppends(e, step, now);
      var l := entries.cells[e].row.lineage;
      var claim;
      claim, p := Append(e, step, now, token);
      if claim.Exhausted? { return Failed(Invariant), p; }
      TouchGrown(l, items, p, e, claim.ref.index, step, now);
      KeptGrown(items, p, e, claim.ref.index, step, now);
      return Child(claim.ref, token), p;
    }

    // Any other step: make room without touching the lineage itself, then append.
    method StepAdmitted(e: nat, step: Step, now: int, token: Token)
      returns (r: Materialized, ghost p: nat, ghost k: nat)
      requires Valid() && Renewable() && CanStep(e, step, now) && step.use.slots != 1
      requires token == derive(tokenOf[e], step.successor.digest)
      modifies Repr
      ensures Valid() && closed == old(closed) && r.Child? && r.token == token && entries.IsValid(r.entry)
      ensures RowAt(entries.cells[..], e).memo == Some(step.text)
      ensures SteppedTo(cfg, old(View()), View(), old(baseBytes), old(LineageOf(e)), e, r.entry.index, step, now, p, k)
      ensures token in tokens.contents && tokens.contents[token] == r.entry.index
      ensures SameJobs(old(entries.cells[..]), entries.cells[..])
      ensures KeptBy(old(View()), View(), Frugal(step.use), {})
    {
      hide KeptBy;
      hide SameJobs;
      hide Index<Token>.Valid, Index<nat>.Valid, Store<EntryRow>.Valid, Store<LineageRow>.Valid, RecencyList.Valid;
      hide Registry.Valid, Ok, View, Items, CanStep, CanAppend, Grown, Growable, Slack, LeastRoom, Admissible;
      hide Removed, VictimRefs, Shrunk;
      hide Evicted, DistinctRefs, SteppedTo, Suits;
      ghost var items, s := View(), Snapshot();
      p := AdmittedFacts(e, step, now);
      var l := entries.cells[e].row.lineage;
      DistinctNow();
      assert Ok(cfg, s) by { OkNow(); }
      var evicted;
      evicted, k := EvictUntilFits(1, step.use.bytes, now, l);
      if !evicted { return Failed(Invariant), p, k; }
      ghost var rest := View();
      ghost var q := StillThere(s, items, p, now, k);
      AfterEviction(s, token);
      EvictedAppends(s, e, items[p], step, now, q);
      var claim;
      ghost var q';
      ghost var evictedCells := entries.cells[..];
      claim, q' := Append(e, step, now, token);
      SameJobsTrans(s.cells, evictedCells, entries.cells[..]);
      if claim.Exhausted? { return Failed(Invariant), p, k; }
      SamePlaceInView(rest, q, q');
      TouchGrown(l, rest, q', e, claim.ref.index, step, now);
      GrownInFront(cfg, items, rest, View(), s.baseBytes, p, q, e, claim.ref.index, step, now, k);
      return Child(claim.ref, token), p, k;
    }

    // The touch after an append.
    method TouchGrown(l: nat, ghost items: seq<Item>, ghost p: nat, ghost e: nat, ghost child: nat, ghost step: Step,
                      ghost now: int)
      requires Valid() && l < lineages.cells.Length && lineages.cells[l].occupied
      requires p < |items| && items[p].ref == l && items[p].chain != [] && Growable(items[p].row, step.use)
      requires View() == items[p := Grown(items[p], e, child, step, now)]
      modifies lru, lru.prev, lru.next
      ensures Valid()
      ensures View() == [Grown(items[p], e, child, step, now)] + (items[..p] + items[p + 1..])
    {
      hide Registry.Valid, Ok, View, Items, Growable;
      ghost var grown := View();
      DistinctNow();
      ghost var q := TouchLineage(l);
      SamePlaceInView(grown, p, q);
      assert grown[..p] == items[..p] && grown[p + 1..] == items[p + 1..];
    }

    lemma PrepaidAppends(e: nat, step: Step, now: int)
      requires Valid() && Renewable() && CanStep(e, step, now) && step.use.slots == 1
      ensures e < entries.cells.Length && CanAppend(e, step, now) && entries.free != [] && Claimable()
      ensures derive(tokenOf[e], step.successor.digest) !in tokens.contents
    {
      hide Ok, Items, Accounted, WellRun, StepAllowed;
      var p := EntryFacts(e);
      SameItem(p, entries.cells[e].row.lineage);
      ReservedCell(p);
    }

    lemma AdmittedFacts(e: nat, step: Step, now: int) returns (p: nat)
      requires Valid() && CanStep(e, step, now) && step.use.slots != 1
      ensures var l := entries.cells[e].row.lineage;
              && e < entries.cells.Length && entries.cells[e].occupied
              && p < |View()| && View()[p].ref == l && View()[p] == ItemOf(Snapshot(), l)
              && Admissible(cfg, View(), baseBytes, 1, step.use.bytes, now, l)
              && derive(tokenOf[e], step.successor.digest) !in tokens.contents
              && CanGrow(e, View()[p], step, now)
    {
      hide Ok, Items, Accounted, WellRun, StepAllowed, Admissible;
      p := EntryFacts(e);
      SameItem(p, entries.cells[e].row.lineage);
    }

    // The part of CanAppend that eviction of other lineages cannot disturb.
    ghost predicate CanGrow(e: nat, it: Item, step: Step, now: int)
      reads entries.cells
    {
      && e < entries.cells.Length && entries.cells[e].occupied && entries.cells[e].row.lineage == it.ref
      && entries.cells[e].row.successor == NO_REF && it.chain != []
      && StepAllowed(cfg, it, step.successor, step.text, step.use, now)
    }

    // The excluded lineage survives the evictions as it was.
    lemma StillThere(s: Snap, items: seq<Item>, p: nat, now: int, k: nat) returns (q: nat)
      requires Valid() && p < |items| && DistinctRefs(items) && Evicted(items, View(), now, items[p].ref, k)
      ensures q < |View()| && View()[q] == items[p] && DistinctRefs(View())
    {
      DistinctNow();
      ExcludedStays(items, now, p, k);
      assert items[p] in View();
      q :| 0 <= q < |View()| && View()[q] == items[p];
    }

    lemma EvictedAppends(s: Snap, e: nat, it: Item, step: Step, now: int, q: nat)
      requires Valid() && FitsNow(1, step.use.bytes) && step.use.slots != 1 && Shrunk(s, Snapshot()) && Ok(cfg, s)
      requires e < |s.cells| && s.cells[e].occupied && s.cells[e].row.lineage == it.ref
               && s.cells[e].row.successor == NO_REF
      requires it.chain != [] && StepAllowed(cfg, it, step.successor, step.text, step.use, now)
      requires q < |View()| && View()[q] == it
      ensures e < entries.cells.Length && entries.cells[e].row.lineage == it.ref && CanAppend(e, step, now)
              && entries.free != []
    {
      hide Index<Token>.Valid, Index<nat>.Valid, Store<EntryRow>.Valid, Store<LineageRow>.Valid, RecencyList.Valid;
      hide Registry.Valid, Items, StepAllowed, Fits;
      assert entries.cells[e] == s.cells[e] by {
        hide Ok;
        ShrunkEntry(s, e, it, q);
      }
      hide Ok, Shrunk;
      SameItem(q, it.ref);
      RoomForOne(step.use.bytes);
      FreeCells();
    }

    lemma RoomForOne(bytes: nat)
      requires FitsNow(1, bytes)
      ensures tokens.live < cfg.maxEntries
    {
    }

    lemma ShrunkEntry(s: Snap, e: nat, it: Item, q: nat)
      requires Valid() && Shrunk(s, Snapshot()) && Ok(cfg, s)
      requires e < |s.cells| && s.cells[e].occupied && s.cells[e].row.lineage == it.ref
      requires q < |View()| && View()[q].ref == it.ref
      ensures e < entries.cells.Length && entries.cells[e] == s.cells[e]
    {
      hide Index<Token>.Valid, Index<nat>.Valid, Store<EntryRow>.Valid, Store<LineageRow>.Valid;
      hide RecencyList.Valid, Items;
      ChainEnd(cfg, s, e);
      PlaceInOrder(q);
      OkParts(cfg, Snapshot());
      hide Ok;
      LineageHasChain(Snapshot(), q);
      ChainEntry(Snapshot(), it.ref, s.cells[e].row.page);
      hide ChainsOk, OrderOk, TokensOk, IdsOk;
    }

    lemma AppendFacts(e0: nat, step: Step, now: int) returns (p: nat)
      requires Valid() && CanAppend(e0, step, now) && entries.free != []
      ensures e0 < entries.cells.Length && entries.cells[e0].occupied
      ensures var row, l, e := entries.cells[e0].row, entries.cells[e0].row.lineage, entries.freeHead;
              && l < lineages.cells.Length && lineages.cells[l].occupied && l in chains
              && p < |lru.order| && lru.order[p] == l && p < |View()| && View()[p] == ItemOf(Snapshot(), l)
              && View()[p].row == lineages.cells[l].row && View()[p].ref == l
              && Growable(lineages.cells[l].row, step.use)
              && (step.use.slots == 1 ==> totalBytes >= Slack(lineages.cells[l].row, step.use))
              && e < entries.cells.Length && !entries.cells[e].occupied && entries.free[0] == e && e != e0
              && View()[p].chain != [] && View()[p].chain[|View()[p].chain| - 1] == row
                && row.page + 1 == |View()[p].chain|
              && chains[l] != [] && chains[l][|chains[l]| - 1] == e0 && |chains[l]| == row.page + 1
              && StepAllowed(cfg, View()[p], step.successor, step.text, step.use, now)
              && (step.use.slots == 1 ==> Prepaid(View()[p].row, step.use))
              && (step.use.slots != 1 ==> FitsNow(1, step.use.bytes))
              && tokens.live < cfg.maxEntries && row.memo.None?
    {
      hide Index<Token>.Valid, Index<nat>.Valid, RecencyList.Valid, FreeList, Outdated, Ok, StepAllowed;
      hide Accounted, WellRun, Items;
      FreeCells();
      p := EntryFacts(e0);
      SameItem(p, entries.cells[e0].row.lineage);
      PlaceInOrder(p);
      ChainEnd(cfg, Snapshot(), e0);
      ChainFacts(cfg, Snapshot(), p);
      GrownOk(cfg, View()[p], e0, entries.freeHead, step, now);
    }

    // The first entry of a lineage.
    lemma HeadFacts(l: nat)
      requires Valid() && l < lineages.cells.Length && lineages.cells[l].occupied
      ensures var e := lineages.cells[l].row.entryHead;
              e < entries.cells.Length && entries.cells[e].occupied && entries.cells[e].row.lineage == l
    {
      hide Index<Token>.Valid, Index<nat>.Valid, RecencyList.Valid, FreeList, Outdated, OrderOk, TokensOk;
      hide IdsOk, Reusable, ItemsOk, CountsOk;
      assert Occupied(Snapshot().lines, l);
      ChainEntry(Snapshot(), l, 0);
    }

    // Entry k of a lineage of the view is the row of an occupied cell.
    lemma ViewStored(p: nat, k: nat) returns (e: nat)
      requires Valid() && p < |View()| && k < |View()[p].chain|
      ensures e < entries.cells.Length && entries.cells[e].occupied && entries.cells[e].row == View()[p].chain[k]
    {
      hide Index<Token>.Valid, Index<nat>.Valid, RecencyList.Valid, FreeList, Outdated, TokensOk, IdsOk;
      hide Reusable, CountsOk, ItemsOk;
      PlaceInOrder(p);
      var s := Snapshot();
      LineageHasChain(s, p);
      e := s.chains[s.order[p]][k];
      ChainEntry(s, s.order[p], k);
    }

    lemma ViewAccounted(p: nat)
      requires Valid() && p < |View()|
      ensures Accounted(View()[p])
    {
      hide Index<Token>.Valid, Index<nat>.Valid, Store<EntryRow>.Valid, Store<LineageRow>.Valid, RecencyList.Valid;
      hide ChainsOk, OrderOk, TokensOk, IdsOk, Reusable, CountsOk, Accounted, WellRun, Items;
    }

    lemma PlaceInOrder(p: nat)
      requires Valid() && p < |View()|
      ensures p < |lru.order| && lru.order[p] == View()[p].ref
    {
    }

    // ------------------------------------------------------------ rewriting in place

    // Data columns of one entry and of its lineage change; the new lineage obeys its laws and
    // weighs as much as before.
    method RewriteEntry(e: nat, row: EntryRow, line: LineageRow, ghost it': Item) returns (ghost p: nat)
      requires Valid() && e < entries.cells.Length && entries.cells[e].occupied
      requires SamePlace(row, entries.cells[e].row)
      requires var l := entries.cells[e].row.lineage;
               && l < lineages.cells.Length
               && line.id == lineages.cells[l].row.id && line.entryHead == lineages.cells[l].row.entryHead
               && Slots(line) == Slots(lineages.cells[l].row) && line.dynamicBytes == lineages.cells[l].row.dynamicBytes
               && var it := ItemOf(Snapshot(), l);
                  && row.page < |it.chain| && it' == Item(l, line, it.chain[row.page := row])
                  && Accounted(it') && WellRun(cfg, it')
      modifies Repr
      ensures Valid() && p < |old(View())| && old(View())[p].ref == old(entries.cells[e].row.lineage)
      ensures old(View())[p] == ItemOf(old(Snapshot()), old(entries.cells[e].row.lineage))
      ensures View() == old(View())[p := it']
      ensures entries.cells[..] == old(entries.cells[..])[e := old(entries.cells[e]).(row := row)]
      ensures lineages.cells[..]
           == old(lineages.cells[..])[row.lineage := old(lineages.cells[row.lineage]).(row := line)]
      ensures closed == old(closed) && nextLineageId == old(nextLineageId) && baseBytes == old(baseBytes)
      ensures tokens.contents == old(tokens.contents) && chains == old(chains) && tokenOf == old(tokenOf)
    {
      hide Index<Token>.Valid, Index<nat>.Valid, Store<EntryRow>.Valid, Store<LineageRow>.Valid, RecencyList.Valid;
      hide Ok, Items, Accounted, WellRun, Rewritten, Slots, ItemOf;
      ghost var s := Snapshot();
      p := EntryFacts(e);
      var l := entries.cells[e].row.lineage;
      SameItem(p, l);
      PlaceInOrder(p);
      entries.Write(e, row);
      lineages.Write(l, line);
      RewriteIntro(cfg, s, Snapshot(), p, e, row, line);
    }

    // Continue marks the entry as computing and pins its lineage.
    method StartWork(e: nat, id: nat) returns (ghost p: nat)
      requires Valid() && e < entries.cells.Length && entries.cells[e].occupied && entries.cells[e].row.work.Idle?
      modifies Repr
      ensures Valid() && p < |old(View())| && old(View())[p].ref == old(entries.cells[e].row.lineage)
      ensures var k := old(entries.cells[e].row.page);
              k < |old(View())[p].chain| && View() == old(View())[p := Started(old(View())[p], k, id)]
      ensures entries.cells[..] == old(entries.cells[..])[e := entries.cells[e]]
      ensures entries.cells[e] == old(entries.cells[e]).(row := old(entries.cells[e].row).(work := Computing(id,
            false)))
      ensures closed == old(closed)
      ensures Kept(old(View()), View())
    {
      hide KeptBy;
      hide Index<Token>.Valid, Index<nat>.Valid, Store<EntryRow>.Valid, Store<LineageRow>.Valid, RecencyList.Valid;
      hide Registry.Valid, Ok, View, Items, Accounted, WellRun;
      p := EntryFacts(e);
      var row := entries.cells[e].row;
      var line := lineages.cells[row.lineage].row;
      SameItem(p, row.lineage);
      ghost var it := View()[p];
      DistinctNow();
      StartedOk(cfg, it, row.page, id);
      ghost var items, q := View(), p;
      q := RewriteEntry(e, row.(work := Computing(id, false)), line.(pins := line.pins + 1), Started(it, row.page, id));
      SamePlaceInView(items, p, q);
      KeptStarted(items, p, row.page, id);
    }

    // The computation of an entry may no longer commit.
    method Forbid(e: nat) returns (ghost p: nat)
      requires Valid() && e < entries.cells.Length && entries.cells[e].occupied && entries.cells[e].row.work.Computing?
      modifies Repr
      ensures Valid() && p < |old(View())| && old(View())[p].ref == old(entries.cells[e].row.lineage)
      ensures var k := old(entries.cells[e].row.page);
              k < |old(View())[p].chain| && View() == old(View())[p := Forbidden(old(View())[p], k)]
      ensures entries.cells[..] == old(entries.cells[..])[e := entries.cells[e]]
      ensures entries.cells[e] == Stopped(old(entries.cells[e]))
      ensures closed == old(closed)
    {
      hide Index<Token>.Valid, Index<nat>.Valid, Store<EntryRow>.Valid, Store<LineageRow>.Valid, RecencyList.Valid;
      hide Registry.Valid, Ok, View, Items, Accounted, WellRun;
      p := EntryFacts(e);
      var row := entries.cells[e].row;
      var line := lineages.cells[row.lineage].row;
      SameItem(p, row.lineage);
      ghost var it := View()[p];
      DistinctNow();
      ForbiddenOk(cfg, it, row.page);
      ghost var items, q := View(), p;
      q := RewriteEntry(e, row.(work := Stop(row.work)), line, Forbidden(it, row.page));
      SamePlaceInView(items, p, q);
    }

    // tombstoneComputationLocked, while the computation still runs.
    method Bury(e: nat) returns (ghost p: nat)
      requires Valid() && e < entries.cells.Length && entries.cells[e].occupied
      modifies Repr
      ensures Valid() && p < |old(View())| && old(View())[p].ref == old(entries.cells[e].row.lineage)
      ensures var k := old(entries.cells[e].row.page);
              k < |old(View())[p].chain| && View() == old(View())[p := Buried(old(View())[p], k)]
      ensures SameJobs(old(entries.cells[..]), entries.cells[..]) && entries.cells[e].occupied
      ensures entries.cells[..] == old(entries.cells[..])[e := entries.cells[e]]
      ensures entries.cells[e]
              == old(entries.cells[e]).(row := old(entries.cells[e].row).(kind := entries.cells[e].row.kind))
      ensures closed == old(closed)
    {
      hide Index<Token>.Valid, Index<nat>.Valid, Store<EntryRow>.Valid, Store<LineageRow>.Valid, RecencyList.Valid;
      hide Registry.Valid, Ok, View, Items, Accounted, WellRun, SameJobs;
      p := EntryFacts(e);
      var row := entries.cells[e].row;
      var line := lineages.cells[row.lineage].row;
      SameItem(p, row.lineage);
      ghost var it := View()[p];
      DistinctNow();
      BuriedOk(cfg, it, row.page);
      ghost var items, q, cells := View(), p, entries.cells[..];
      if row.kind == Resident && line.resident != 0 {
        q := RewriteEntry(e, row.(kind := Tombstone),
                          line.(resident := line.resident - 1, tombstones := line.tombstones + 1,
                                flags := RollbackPending),
                          Buried(it, row.page));
      } else {
        assert it.chain[row.page := row] == it.chain;
        q := RewriteEntry(e, row, line.(flags := RollbackPending), Buried(it, row.page));
      }
      RewrittenKeepsJobs(cells, e, entries.cells[e]);
      SamePlaceInView(items, p, q);
    }

    // The computation of an entry ended: runtime cleared, one pin less.
    method EndWork(e: nat) returns (ghost p: nat)
      requires Valid() && e < entries.cells.Length && entries.cells[e].occupied && entries.cells[e].row.work.Computing?
      modifies Repr
      ensures Valid() && p < |old(View())| && old(View())[p].ref == old(entries.cells[e].row.lineage)
      ensures var k := old(entries.cells[e].row.page);
              && k < |old(View())[p].chain| && old(View())[p].row.pins > 0
              && View() == old(View())[p := Ended(old(View())[p], k)]
      ensures entries.cells[..] == old(entries.cells[..])[e := entries.cells[e]]
      ensures entries.cells[e] == old(entries.cells[e]).(row := old(entries.cells[e].row).(work := Idle))
      ensures closed == old(closed)
    {
      hide Index<Token>.Valid, Index<nat>.Valid, Store<EntryRow>.Valid, Store<LineageRow>.Valid, RecencyList.Valid;
      hide Registry.Valid, Ok, View, Items, Accounted, WellRun;
      p := EntryFacts(e);
      var row := entries.cells[e].row;
      var line := lineages.cells[row.lineage].row;
      SameItem(p, row.lineage);
      ghost var it := View()[p];
      DistinctNow();
      EndedOk(cfg, it, row.page);
      ghost var items, q := View(), p;
      q := RewriteEntry(e, row.(work := Idle), line.(pins := line.pins - 1), Ended(it, row.page));
      SamePlaceInView(items, p, q);
    }

    predicate InPhaseAt(ref: Ref, flags: Flags)
      reads lineages.cells
    {
      lineages.IsValid(ref) && lineages.cells[ref.index].row.flags == flags
    }

    // The identifier of the lineage that a reference names.
    ghost function IdAt(ref: Ref): set<nat>
      reads lineages.cells
    {
      if ref.index < lineages.cells.Length then {lineages.cells[ref.index].row.id} else {}
    }

    // The phase changes of a publication: only from the expected phase, only while open.
    method AdvancePhase(ref: Ref, from: Flags, to: Flags, protectedUntil: int) returns (ok: bool, ghost p: nat)
      requires Valid() && from != to && from != Clear && from != RollbackPending && to != Clear && to != RollbackPending
      modifies Repr
      ensures Valid() && closed == old(closed)
      ensures ok <==> !closed && old(InPhaseAt(ref, from))
      ensures !ok ==> unchanged(Repr)
      ensures ok ==>
        && p < |old(View())| && old(View())[p].ref == ref.index
        && View() == old(View())[p := Advanced(old(View())[p], to, protectedUntil)]
      ensures ok ==> InPhaseAt(ref, to)
      ensures entries.cells[..] == old(entries.cells[..])
      ensures KeptBy(old(View()), View(), true, if ok && to == Published then old(IdAt(ref)) else {})
    {
      hide KeptBy;
      hide Index<Token>.Valid, Index<nat>.Valid, Store<EntryRow>.Valid, Store<LineageRow>.Valid, RecencyList.Valid;
      hide Registry.Valid, Ok, View, Items, Accounted, WellRun;
      p := 0;
      KeptRefl(View(), true, {});
      if closed || !lineages.IsValid(ref) || lineages.cells[ref.index].row.flags != from { return false, p; }
      var line := lineages.cells[ref.index].row;
      var e := line.entryHead;
      HeadFacts(ref.index);
      ghost var q := EntryFacts(e);
      SameItem(q, ref.index);
      var row := entries.cells[e].row;
      ghost var it := View()[q];
      assert it.chain[row.page := row] == it.chain;
      DistinctNow();
      AdvancedOk(cfg, it, to, protectedUntil);
      ghost var items := View();
      p := RewriteEntry(e, row, AdvancedRow(line, to, protectedUntil), Advanced(it, to, protectedUntil));
      SamePlaceInView(items, q, p);
      KeptAdvanced(items, p, to, protectedUntil);
      return true, p;
    }

    static lemma Apart(chain: seq<nat>, k: nat)
      requires Distinct(chain) && k < |chain|
      ensures forall j :: 0 <= j < |chain| && j != k ==> chain[j] != chain[k]
    {
    }

    // cancelLineageWorkLocked: every running computation of the lineage may no longer commit.
    method CancelWork(head: nat, ghost chain: seq<nat>)
      requires entries.Valid() && entries.cells.Length == cfg.maxEntries <= NO_REF
      requires head == HeadOf(chain) && Distinct(chain) && |chain| <= cfg.maxEntries
      requires forall k :: 0 <= k < |chain| ==>
        Occupied(entries.cells[..], chain[k]) && entries.cells[chain[k]].row.successor == After(chain, k)
      modifies entries.cells
      ensures entries.Valid()
      ensures forall e :: 0 <= e < entries.cells.Length ==>
        entries.cells[e] == if e in chain then Stopped(old(entries.cells[e])) else old(entries.cells[e])
    {
      hide Store<EntryRow>.Valid, Stopped, Distinct;
      var entry, visited := head, 0;
      while entry != NO_REF && visited < cfg.maxEntries
        invariant 0 <= visited <= |chain| && entry == HeadOf(chain[visited..])
        invariant entries.Valid()
        invariant forall k :: 0 <= k < visited ==> entries.cells[chain[k]] == Stopped(old(entries.cells[chain[k]]))
        invariant forall k :: visited <= k < |chain| ==> entries.cells[chain[k]] == old(entries.cells[chain[k]])
        invariant forall e :: 0 <= e < entries.cells.Length && e !in chain ==> entries.cells[e] == old(entries.cells[e])
        decreases |chain| - visited
      {
        assert entry == chain[visited];
        Apart(chain, visited);
        var row := entries.cells[entry].row;
        StoppedCell(entries.cells[entry]);
        if row.work.Computing? {
          entries.Write(entry, row.(work := row.work.(noCommit := true)));
        }
        entry := row.successor;
        visited := visited + 1;
      }
    }

    // removeLineageLocked on a pinned lineage: nothing is freed; the lineage leaves its phase,
    // its computations may not commit, and the last of them will remove it.
    method RollBack(ref: Ref) returns (ghost p: nat)
      requires Valid() && lineages.IsValid(ref) && lineages.cells[ref.index].row.pins != 0
      modifies Repr
      ensures Valid() && Rewritten(old(Snapshot()), Snapshot(), ref.index)
      ensures p < |old(View())| && old(View())[p].ref == ref.index
      ensures old(View())[p].row == old(lineages.cells[ref.index].row)
      ensures View() == old(View())[p := Rolled(old(View())[p])]
      ensures closed == old(closed) && nextLineageId == old(nextLineageId) && baseBytes == old(baseBytes)
      ensures usedSlots == old(usedSlots) && totalBytes == old(totalBytes)
      ensures SameJobs(old(entries.cells[..]), entries.cells[..])
    {
      hide SameJobs;
      hide Index<Token>.Valid, Index<nat>.Valid, Store<EntryRow>.Valid, Store<LineageRow>.Valid, RecencyList.Valid;
      hide Ok, Accounted, WellRun, Inverse, Sum, Rewritten, StopAll;
      ghost var s := Snapshot();
      assert cfg.maxEntries <= NO_REF by { Capacity(); }
      p := Place(ref.index);
      ChainFacts(cfg, s, p);
      var row := lineages.cells[ref.index].row;
      lineages.Write(ref.index, row.(flags := RollbackPending));
      CancelWork(row.entryHead, chains[ref.index]);
      RollBackOk(cfg, s, Snapshot(), p);
      StoppedKeepsJobs(s.cells, Snapshot().cells, chains[ref.index]);
    }

    // removeLineageLocked. Once the registry is closed, the last removal releases everything.
    method RemoveLineage(ref: Ref) returns (ok: bool, ghost p: nat)
      requires Valid()
      modifies Repr
      ensures Valid() && (ok <==> old(lineages.IsValid(ref)))
      ensures !ok ==> unchanged(Repr)
      ensures ok ==> p < |old(View())| && old(View())[p].ref == ref.index
      ensures ok ==> View() == Dropped(old(View()), p)
      ensures ok && old(View())[p].row.pins == 0 && closed && View() == [] ==> totalBytes == 0
      ensures closed == old(closed)
      ensures SameJobs(old(entries.cells[..]), entries.cells[..])
      ensures Kept(old(View()), View())
    {
      hide SameJobs;
      hide Valid, Snapshot, View, Items, Rolled, Rewritten, WithoutLineage, KeptBy;
      p := 0;
      ghost var items := View();
      SameJobsRefl(entries.cells[..]);
      KeptRefl(items, true, {});
      if !lineages.IsValid(ref) { return false, 0; }
      if lineages.cells[ref.index].row.pins != 0 {
        p := RollBack(ref);
        KeptRolled(items, p);
        return true, p;
      }
      ok, p := RemoveUnpinned(ref);
      KeptRest(items, p);
      ViewCount();
      if closed && ids.live == 0 { ReleaseFixed(); }
    }

    lemma ViewCount()
      requires Valid()
      ensures ids.live == |View()|
    {
      hide Index<Token>.Valid, Index<nat>.Valid, Store<EntryRow>.Valid, Store<LineageRow>.Valid;
      hide RecencyList.Valid, Items;
      SumCountsLineages(View());
    }

    // releaseFixedLocked, as far as the counters go.
    method ReleaseFixed()
      requires Valid() && ids.live == 0
      modifies this`usedSlots, this`baseBytes, this`totalBytes, this`nextLineageId
      ensures Valid() && View() == old(View()) == [] && totalBytes == 0 && usedSlots == 0
    {
      hide Index<Token>.Valid, Index<nat>.Valid, Store<EntryRow>.Valid, Store<LineageRow>.Valid, RecencyList.Valid;
      ViewCount();
      assert ids.contents == map[] by { NoIds(); }
      ghost var s := Snapshot();
      usedSlots, baseBytes, totalBytes, nextLineageId := 0, 0, 0, 0;
      EmptiedOk(cfg, s, Snapshot());
    }

    lemma NoIds()
      requires ids.Valid() && ids.live == 0
      ensures ids.contents == map[]
    {
    }

    // Close: every unpinned lineage goes at once; every pinned one is rolled back and goes
    // with its last computation.
    method Close()
      requires Valid()
      modifies Repr
      ensures closed && View() == if old(closed) then old(View()) else ClosedView(old(View()))
      ensures !old(closed) && View() == [] ==> totalBytes == 0
      ensures SameJobs(old(entries.cells[..]), entries.cells[..])
      ensures Kept(old(View()), View())
      ensures Valid()
    {
      hide KeptBy;
      hide Registry.Valid, Ok, Snapshot, View, Items, Rolled, SameJobs, ClosedView;
      SameJobsRefl(entries.cells[..]);
      KeptRefl(View(), true, {});
      if closed { return; }
      ghost var items, target, cells := View(), ClosedView(View()), entries.cells[..];
      SetClosed();
      ViewCount();
      while ids.live != 0
        invariant Valid() && closed && ids.live == |View()| && ClosedView(View()) == target
        invariant SameJobs(cells, entries.cells[..])
        decreases |View()|
      {
        ghost var before := entries.cells[..];
        var removed := CloseRound();
        SameJobsTrans(cells, before, entries.cells[..]);
        ViewCount();
        if !removed { break; }
      }
      ClosedNone(View());
      KeptClosed(items);
      if ids.live == 0 { ReleaseFixed(); }
    }

    method SetClosed()
      requires Valid()
      modifies this`closed
      ensures Valid() && closed && View() == old(View())
    {
      hide Index<Token>.Valid, Index<nat>.Valid, Store<EntryRow>.Valid, Store<LineageRow>.Valid, RecencyList.Valid, Ok;
      closed := true;
    }

    // One sweep over the arena: pinned lineages are rolled back until an unpinned one is
    // found and removed.
    method CloseRound() returns (removed: bool)
      requires Valid() && closed
      modifies Repr
      ensures Valid() && closed && ClosedView(View()) == ClosedView(old(View()))
      ensures removed ==> |View()| < |old(View())|
      ensures !removed ==> |View()| == |old(View())| && ClosedView(View()) == View()
      ensures SameJobs(old(entries.cells[..]), entries.cells[..])
    {
      hide Registry.Valid, Ok, Snapshot, View, Items, Rolled, SameJobs, ClosedView;
      ghost var items, cells := View(), entries.cells[..];
      SameJobsRefl(cells);
      var index := 0;
      while index < lineages.cells.Length
        invariant 0 <= index <= lineages.cells.Length && Valid() && closed
        invariant ClosedView(View()) == ClosedView(items) && |View()| == |items|
        invariant forall k :: 0 <= k < |View()| && View()[k].ref < index ==>
          View()[k].row.pins != 0 && Rolled(View()[k]) == View()[k]
        invariant SameJobs(cells, entries.cells[..])
      {
        if lineages.cells[index].occupied {
          ghost var before, now := entries.cells[..], View();
          var ref := Ref(index, lineages.cells[index].generation);
          DistinctNow();
          ghost var p;
          var pinned := lineages.cells[index].row.pins != 0;
          ghost var q := PinsInView(index);
          if pinned {
            p := RollBack(ref);
            SamePlaceInView(now, q, p);
            ClosedRolled(now, p);
          } else {
            var ok;
            ok, p := RemoveUnpinned(ref);
            SamePlaceInView(now, q, p);
            ClosedRemoved(now, p);
          }
          SameJobsTrans(cells, before, entries.cells[..]);
          if !pinned { return true; }
        } else {
          NotInView(index);
        }
        index := index + 1;
      }
      AllInRange();
      ClosedAll(View());
      return false;
    }

    lemma PinsInView(l: nat) returns (p: nat)
      requires Valid() && l < lineages.cells.Length && lineages.cells[l].occupied
      ensures p < |View()| && View()[p].ref == l && View()[p].row == lineages.cells[l].row
    {
      hide Ok, Items;
      p := Place(l);
      AllVisited(0);
    }

    lemma NotInView(l: nat)
      requires Valid() && l < lineages.cells.Length && !lineages.cells[l].occupied
      ensures forall k :: 0 <= k < |View()| ==> View()[k].ref != l
    {
      hide Ok, Items;
      AllVisited(0);
      forall k | 0 <= k < |View()| ensures View()[k].ref != l { ViewAt(k); }
    }

    lemma AllInRange()
      requires Valid()
      ensures forall k :: 0 <= k < |View()| ==> View()[k].ref < lineages.cells.Length
    {
      hide Ok, Items;
      AllVisited(0);
      forall k | 0 <= k < |View()| ensures View()[k].ref < lineages.cells.Length { ViewAt(k); }
    }

    // fitsLocked.
    predicate FitsNow(slots: nat, bytes: nat)
      reads this, tokens, ids
    {
      Fits(cfg, Totals(usedSlots, tokens.live, ids.live, totalBytes), slots, bytes)
    }

    predicate EvictableAt(l: nat, now: int)
      reads lineages.cells
    {
      l < lineages.cells.Length && lineages.cells[l].occupied && Evictable(lineages.cells[l].row, now)
    }

    // canAdmitWithEvictionLocked: a dry run over the recency list, which answers whether some
    // number of evictions makes room and changes nothing.
    method CanAdmit(slots: nat, bytes: nat, now: int, exclude: nat) returns (ok: bool)
      requires Valid()
      ensures ok <==> Admissible(cfg, View(), baseBytes, slots, bytes, now, exclude)
    {
      hide Index<Token>.Valid, Index<nat>.Valid, Store<EntryRow>.Valid, Store<LineageRow>.Valid;
      hide Registry.Valid, Ok, Snapshot, View, Items, Fits, DryRun, Admissible;
      var t := Totals(usedSlots, tokens.live, ids.live, totalBytes);
      ghost var items := View();
      StartDryRun(slots, bytes, now, exclude);
      if Fits(cfg, t, slots, bytes) { return true; }
      AllVisited(0);
      var current, visited := lru.tail, 0;
      ghost var n, k := |lru.order|, 0;
      assert lru.order[..n] == lru.order;
      while current != NO_REF && visited < cfg.maxEntries
        invariant 0 <= n <= |lru.order| && visited == |lru.order| - n
        invariant current == LastOf(lru.order[..n])
        invariant DryRun(cfg, items, baseBytes, slots, bytes, now, exclude, n, k, t)
        decreases n
      {
        ViewAt(n - 1);
        var previous := lru.prev[current];
        var row := lineages.cells[current].row;
        DryRunStep(cfg, items, baseBytes, slots, bytes, now, exclude, n, k, t);
        if current != exclude && EvictableAt(current, now) {
          if Slots(row) > t.slots || row.dynamicBytes > t.bytes || t.lineages == 0 { return false; }
          if Entries(row) > t.entries { return false; }
          t := Minus(t, Weight(row));
          k := k + 1;
          if Fits(cfg, t, slots, bytes) { return true; }
        }
        current := previous;
        visited := visited + 1;
        n := n - 1;
      }
      AllVisited(n);
      DryRunEnd(cfg, items, baseBytes, slots, bytes, now, exclude, k, t);
      return false;
    }

    lemma StartDryRun(slots: nat, bytes: nat, now: int, exclude: nat)
      requires Valid()
      ensures var t := Totals(usedSlots, tokens.live, ids.live, totalBytes);
              if Fits(cfg, t, slots, bytes)
              then Admissible(cfg, View(), baseBytes, slots, bytes, now, exclude)
              else DryRun(cfg, View(), baseBytes, slots, bytes, now, exclude, |lru.order|, 0, t)
    {
      hide Ok, Fits, Admissible, DryRun;
      DryRunStart(cfg, Snapshot(), slots, bytes, now, exclude);
    }

    lemma AllVisited(n: nat)
      requires Valid() && n <= |lru.order|
      ensures lru.tail == LastOf(lru.order) && |lru.order| <= cfg.maxEntries && |View()| == |lru.order|
      ensures LastOf(lru.order[..n]) == NO_REF || |lru.order| - n >= cfg.maxEntries ==> n == 0
    {
      hide Index<Token>.Valid, Index<nat>.Valid, Store<EntryRow>.Valid, Store<LineageRow>.Valid, Ok, ItemOf;
      OrderBound(cfg, Snapshot());
      Capacity();
      if n > 0 { ViewAt(n - 1); }
    }

    // Without room now, the least plan has a first victim.
    lemma StillShort(slots: nat, bytes: nat, now: int, exclude: nat, k: nat)
      requires Valid() && !FitsNow(slots, bytes)
      requires LeastRoom(cfg, View(), baseBytes, slots, bytes, now, exclude, k)
      ensures k > 0 && Victims(View(), now, exclude) != []
              && !RoomAfter(cfg, View(), baseBytes, slots, bytes, now, exclude, 0)
    {
      CountFacts(cfg, Snapshot());
      NoneEvicted(View(), baseBytes, now, exclude);
    }

    // With room now, nothing is left of the least plan.
    lemma NowFits(slots: nat, bytes: nat, now: int, exclude: nat, k: nat)
      requires Valid() && FitsNow(slots, bytes)
      requires LeastRoom(cfg, View(), baseBytes, slots, bytes, now, exclude, k)
      ensures k == 0
    {
      CountFacts(cfg, Snapshot());
      NoneEvicted(View(), baseBytes, now, exclude);
      assert RoomAfter(cfg, View(), baseBytes, slots, bytes, now, exclude, 0);
    }

    lemma EvictionFacts(p: nat, now: int, exclude: nat)
      requires Valid() && LastCandidate(View(), now, exclude, p)
      ensures var items, v, l := View(), Victims(View(), now, exclude), View()[p].ref;
              && l < lineages.cells.Length && lineages.cells[l].occupied && lineages.cells[l].row.pins == 0
              && p < |items| && v != [] && v[0] == items[p] && DistinctRefs(items)
              && Victims(items[..p] + items[p + 1..], now, exclude) == v[1..]
              && Removed(items, {v[0].ref}) == items[..p] + items[p + 1..]
    {
      hide Ok, Items;
      LastCandidateIsNext(View(), now, exclude, p);
      assert DistinctRefs(View()) by { DistinctView(cfg, Snapshot()); }
      RemovedOne(View(), p);
      assert p < |lru.order| by { AllVisited(0); }
      ViewAt(p);
    }

    lemma ViewAt(k: nat)
      requires Valid() && k < |lru.order|
      ensures var l := lru.order[k];
              && l < lineages.cells.Length && lineages.cells[l].occupied && View()[k].ref == l
              && View()[k].row == lineages.cells[l].row && l < lru.prev.Length && lru.prev[l] == Before(lru.order, k)
    {
      assert lru.order[k] in lru.order;
    }

    // eligibleLRUTailLocked: the least recently used candidate.
    method EligibleTail(now: int, exclude: nat) returns (victim: nat, ghost p: nat)
      requires Valid()
      ensures victim == NO_REF <==> forall j :: 0 <= j < |View()| ==> !Candidate(View()[j], now, exclude)
      ensures victim != NO_REF ==> LastCandidate(View(), now, exclude, p) && View()[p].ref == victim
      ensures victim != NO_REF ==> EvictableAt(victim, now)
    {
      hide Index<Token>.Valid, Index<nat>.Valid, Store<EntryRow>.Valid, Store<LineageRow>.Valid;
      hide Registry.Valid, Ok, Snapshot, View, Items;
      AllVisited(0);
      var current, visited := lru.tail, 0;
      ghost var n := |lru.order|;
      assert lru.order[..n] == lru.order;
      while current != NO_REF && visited < cfg.maxEntries
        invariant 0 <= n <= |lru.order| && visited == |lru.order| - n
        invariant current == LastOf(lru.order[..n])
        invariant forall j :: n <= j < |lru.order| ==> !Candidate(View()[j], now, exclude)
        decreases n
      {
        ViewAt(n - 1);
        Capacity();
        if current != exclude && EvictableAt(current, now) { return current, n - 1; }
        current := lru.prev[current];
        visited := visited + 1;
        n := n - 1;
      }
      AllVisited(n);
      return NO_REF, 0;
    }

    // One round of the eviction loop, when room is still short.
    method EvictOne(slots: nat, bytes: nat, now: int, exclude: nat, ghost k: nat) returns (ok: bool)
      requires Valid() && !FitsNow(slots, bytes)
      requires LeastRoom(cfg, View(), baseBytes, slots, bytes, now, exclude, k)
      modifies Repr
      ensures Valid() && ok && k > 0 && Shrunk(old(Snapshot()), Snapshot())
      ensures LeastRoom(cfg, View(), baseBytes, slots, bytes, now, exclude, k - 1)
      ensures EvictedOne(old(View()), View(), now, exclude)
      ensures closed == old(closed) && nextLineageId == old(nextLineageId) && baseBytes == old(baseBytes)
      ensures SameJobs(old(entries.cells[..]), entries.cells[..])
    {
      hide SameJobs;
      hide Index<Token>.Valid, Index<nat>.Valid, Store<EntryRow>.Valid, Store<LineageRow>.Valid;
      hide Registry.Valid, Ok, Snapshot, View, Items, LeastRoom, Victims, LastCandidate, Removed, Shrunk;
      hide WithoutLineage;
      ghost var items := View();
      StillShort(slots, bytes, now, exclude, k);
      var victim, p := EligibleTail(now, exclude);
      SomeVictim(items, now, exclude);
      EvictionFacts(p, now, exclude);
      PlanStep(cfg, items, baseBytes, slots, bytes, now, exclude, p, k - 1);
      ghost var q;
      ok, q := RemoveUnpinned(Ref(victim, lineages.cells[victim].generation));
      SamePlaceInView(items, p, q);
    }

    // The eviction loop: it removes exactly the least sufficient number of candidates, least
    // recently used first, and ends with room.
    method EvictUntilFits(slots: nat, bytes: nat, now: int, exclude: nat) returns (ok: bool, ghost k: nat)
      requires Valid() && Admissible(cfg, View(), baseBytes, slots, bytes, now, exclude)
      modifies Repr
      ensures Valid() && ok && FitsNow(slots, bytes) && Shrunk(old(Snapshot()), Snapshot())
      ensures LeastRoom(cfg, old(View()), baseBytes, slots, bytes, now, exclude, k)
      ensures Evicted(old(View()), View(), now, exclude, k)
      ensures closed == old(closed) && nextLineageId == old(nextLineageId) && baseBytes == old(baseBytes)
      ensures SameJobs(old(entries.cells[..]), entries.cells[..])
    {
      hide SameJobs;
      hide Index<Token>.Valid, Index<nat>.Valid, Store<EntryRow>.Valid, Store<LineageRow>.Valid;
      hide Registry.Valid, Ok, Snapshot, View, Items, Admissible, LeastRoom, Victims, Shrunk, Evicted, EvictedOne;
      ghost var s, items := Snapshot(), View();
      k := LeastOf(cfg, items, baseBytes, slots, bytes, now, exclude);
      ghost var done := 0;
      NothingRemoved(items, now, exclude);
      ShrunkRefl(s);
      SameJobsRefl(s.cells);
      assert s.cells == entries.cells[..] by { SnapshotCells(); }
      while !FitsNow(slots, bytes)
        invariant 0 <= done <= k && Valid()
        invariant LeastRoom(cfg, View(), baseBytes, slots, bytes, now, exclude, k - done)
        invariant Evicted(items, View(), now, exclude, done)
        invariant Shrunk(s, Snapshot()) && SameJobs(s.cells, entries.cells[..])
        invariant closed == old(closed) && nextLineageId == old(nextLineageId) && baseBytes == old(baseBytes)
        decreases k - done
      {
        ghost var before, rest := Snapshot(), View();
        SnapshotCells();
        ok := EvictOne(slots, bytes, now, exclude, k - done);
        if !ok { return false, k; }
        OneMoreRemoved(items, rest, View(), now, exclude, done);
        ShrunkTrans(s, before, Snapshot());
        SameJobsTrans(s.cells, before.cells, entries.cells[..]);
        done := done + 1;
      }
      NowFits(slots, bytes, now, exclude, k - done);
      return true, k;
    }

    // The body of removeLineageLocked after its checks.
    method Dismantle(ref: Ref, ghost chain: seq<nat>) returns (ok: bool)
      requires Parts() && lineages.IsValid(ref) && ref.generation < MAX_GENERATION && ref.index in lru.order
      requires Inverse(tokenOf, tokens.contents) && entries.cells.Length == cfg.maxEntries
      requires var row := lineages.cells[ref.index].row;
               && row.entryHead == HeadOf(chain) && Slots(row) <= usedSlots && row.dynamicBytes <= totalBytes
               && row.id in ids.contents
      requires Distinct(chain) && |chain| <= cfg.maxEntries <= NO_REF
      requires Releasable(entries.cells[..], tokenOf, chain)
      modifies Repr
      ensures Parts() && ok
      ensures ReleasedAlong(old(entries.cells[..]), entries.cells[..], chain)
      ensures lineages.cells[..] == old(lineages.cells[..])[ref.index := lineages.cells[ref.index]]
      ensures Vacated(old(lineages.cells[ref.index]), lineages.cells[ref.index])
      ensures lru.order == Without(old(lru.order), ref.index) && chains == old(chains) - {ref.index}
      ensures tokenOf == Untold(old(tokenOf), chain)
      ensures tokens.contents == old(tokens.contents) - TokensAt(old(tokenOf), chain)
      ensures ids.contents == old(ids.contents) - {old(lineages.cells[ref.index].row.id)}
      ensures usedSlots == old(usedSlots) - Slots(old(lineages.cells[ref.index].row))
      ensures totalBytes == old(totalBytes) - old(lineages.cells[ref.index].row.dynamicBytes)
      ensures tokens.live == old(tokens.live) - |chain| && |entries.free| == old(|entries.free|) + |chain|
      ensures ids.live == old(ids.live) - 1 && |lineages.free| == old(|lineages.free|) + 1
      ensures closed == old(closed) && nextLineageId == old(nextLineageId) && baseBytes == old(baseBytes)
    {
      hide Index<Token>.Valid, Index<nat>.Valid, Store<EntryRow>.Valid, Store<LineageRow>.Valid, RecencyList.Valid;
      hide TokensAt, Untold, Inverse, Without, HeadOf, Slots, Vacated, Releasable, ReleasedAlong;
      var row := lineages.cells[ref.index].row;
      Strip(ref.index, row.entryHead, chain);
      usedSlots := usedSlots - Slots(row);
      totalBytes := totalBytes - row.dynamicBytes;
      chains := chains - {ref.index};
      tokenOf := Untold(tokenOf, chain);
      ok := Unregister(ref);
    }

    // Detach the lineage from the recency list and release its chain.
    method Strip(l: nat, head: nat, ghost chain: seq<nat>)
      requires Separated() && tokens.Valid() && entries.Valid() && lru.Valid() && tokens.homeOf == tokenHome
      requires forall t :: tokenHome(t) < tokens.slots.Length
      requires Inverse(tokenOf, tokens.contents) && entries.cells.Length == cfg.maxEntries && l in lru.order
      requires head == HeadOf(chain) && Distinct(chain) && |chain| <= cfg.maxEntries <= NO_REF
      requires Releasable(entries.cells[..], tokenOf, chain)
      modifies lru, lru.prev, lru.next, tokens, tokens.slots, entries, entries.cells
      ensures tokens.Valid() && entries.Valid() && lru.Valid()
      ensures lru.order == Without(old(lru.order), l)
      ensures tokens.contents == old(tokens.contents) - TokensAt(tokenOf, chain)
      ensures tokens.live == old(tokens.live) - |chain|
      ensures |entries.free| == old(|entries.free|) + |chain|
      ensures ReleasedAlong(old(entries.cells[..]), entries.cells[..], chain)
    {
      hide Index<Token>.Valid, Store<EntryRow>.Valid, RecencyList.Valid, TokensAt, Inverse, Without, Vacated;
      hide Releasable, ReleasedAlong;
      lru.Detach(l);
      ReleaseChain(head, chain);
    }

    method Unregister(ref: Ref) returns (ok: bool)
      requires Separated() && ids.Valid() && ids.homeOf == lineageHome && forall id ::
        lineageHome(id) < ids.slots.Length
      requires lineages.Valid() && lineages.IsValid(ref) && ref.generation < MAX_GENERATION
      requires lineages.cells[ref.index].row.id in ids.contents
      modifies ids, ids.slots, lineages, lineages.cells
      ensures ids.Valid() && lineages.Valid() && ok
      ensures ids.contents == old(ids.contents) - {old(lineages.cells[ref.index].row.id)}
      ensures ids.live == old(ids.live) - 1 && |lineages.free| == old(|lineages.free|) + 1
      ensures lineages.cells[..] == old(lineages.cells[..])[ref.index := lineages.cells[ref.index]]
      ensures Vacated(old(lineages.cells[ref.index]), lineages.cells[ref.index])
    {
      hide Index<nat>.Valid, Store<LineageRow>.Valid;
      var id := lineages.cells[ref.index].row.id;
      var _ := ids.Delete(id, lineageHome(id));
      ok := lineages.Release(ref);
    }

    // The part of removeLineageLocked that walks the chain: every entry loses its token and
    // its cell, and nothing else changes.
    method ReleaseChain(head: nat, ghost chain: seq<nat>)
      requires Separated() && tokens.Valid() && entries.Valid() && tokens.homeOf == tokenHome
      requires forall t :: tokenHome(t) < tokens.slots.Length
      requires Inverse(tokenOf, tokens.contents) && entries.cells.Length == cfg.maxEntries
      requires head == HeadOf(chain) && Distinct(chain) && |chain| <= cfg.maxEntries <= NO_REF
      requires Releasable(entries.cells[..], tokenOf, chain)
      modifies tokens, tokens.slots, entries, entries.cells
      ensures tokens.Valid() && entries.Valid()
      ensures tokens.contents == old(tokens.contents) - TokensAt(tokenOf, chain)
      ensures tokens.live == old(tokens.live) - |chain|
      ensures |entries.free| == old(|entries.free|) + |chain|
      ensures ReleasedAlong(old(entries.cells[..]), entries.cells[..], chain)
    {
      hide Inverse, TokensAt, Untold, Index<Token>.Valid, Store<EntryRow>.Valid, Distinct, Releasable;
      hide ReleasedAlong, Vacated;
      var entry, visited := head, 0;
      ghost var told, cells := tokenOf, entries.cells[..];
      WalkStarts(cells, tokenOf);
      while entry != NO_REF && visited < cfg.maxEntries
        decreases |chain| - visited
        invariant 0 <= visited <= |chain| && entry == HeadOf(chain[visited..])
        invariant tokens.Valid() && entries.Valid()
        invariant tokens.contents == old(tokens.contents) - TokensAt(tokenOf, chain[..visited])
        invariant told == Untold(tokenOf, chain[..visited]) && Inverse(told, tokens.contents)
        invariant tokens.live == old(tokens.live) - visited
        invariant |entries.free| == old(|entries.free|) + visited
        invariant ReleasedAlong(cells, entries.cells[..], chain[..visited])
      {
        assert entry == chain[visited];
        NextOfChain(cells, entries.cells[..], tokenOf, chain, visited);
        TokensNext(tokenOf, chain, visited);
        var next := entries.cells[entry].row.successor;
        ghost var before := entries.cells[..];
        ReleaseEntry(entry, told);
        ReleasedNext(cells, before, entries.cells[..], chain, visited);
        told := Untold(tokenOf, chain[..visited + 1]);
        entry := next;
        visited := visited + 1;
      }
      WalkEnds(cells, tokenOf, chain, visited);
    }

    // One step of the walk.
    method ReleaseEntry(entry: nat, ghost told: map<nat, Token>)
      requires Separated() && tokens.Valid() && entries.Valid() && tokens.homeOf == tokenHome
      requires forall t :: tokenHome(t) < tokens.slots.Length
      requires Inverse(told, tokens.contents) && entry in told
      requires entry < entries.cells.Length && entries.cells[entry].occupied
               && entries.cells[entry].generation < MAX_GENERATION
      modifies tokens, tokens.slots, entries, entries.cells
      ensures tokens.Valid() && entries.Valid()
      ensures tokens.contents == old(tokens.contents) - {told[entry]} && Inverse(told - {entry}, tokens.contents)
      ensures tokens.live == old(tokens.live) - 1
      ensures |entries.free| == old(|entries.free|) + 1
      ensures Vacated(old(entries.cells[entry]), entries.cells[entry])
      ensures entries.cells[..] == old(entries.cells[..])[entry := entries.cells[entry]]
    {
      hide FreeList, Outdated, Placed, Represents, CountFull;
      var found, slot := tokens.KeyOf(entry);
      if found {
        var _ := tokens.Delete(tokens.slots[slot].key, tokens.slots[slot].home);
      }
      var _ := entries.Release(Ref(entry, entries.cells[entry].generation));
    }
  }
}
