// Values and laws of the cursor registry (internal/cursor/registry.go, successor.go,
// accounting.go): the rows of the two arenas, the recency-ordered view of all lineages,
// slot and byte totals, the admission test and the eviction plan.

module RegistryModel {
  import opened Wrappers
  import opened Arena

  // A 128-bit cursor token, read as a number.
  datatype Token = Token(bits: nat)

  datatype Tool = SetCwd | Project | Search | Read | Unknown

  const MAX_UINT64: nat := 0xFFFF_FFFF_FFFF_FFFF
  const MAX_INT64: int := 0x7FFF_FFFF_FFFF_FFFF
  const MAX_CWD_ID: nat := 0x1F_FFFF_FFFF_FFFF
  const HANDOFF_GRACE: int := 60_000_000_000
  const WORD_BYTES: nat := 8

  // An immutable continuation snapshot, as the registry sees it.
  datatype State = State(tool: Tool, cwdId: nat, digest: nat, shared: Option<nat>, footprint: nat)

  datatype Config = Config(maxEntries: nat, maxEntryBytes: nat, maxTotalBytes: nat, maxPages: nat, ttl: int)

  datatype ReservationKind = ReadPagePlan | BroadSummaryFinal

  datatype ReservationUse = ReservationUse(kind: ReservationKind, slots: nat, bytes: nat, mustTerminalize: bool)

  datatype Code = InvalidInput | CursorExpired | WrongTool | WrongCwd | BudgetExceeded | Invariant | IoError

  // The continuation computation an entry runs, if any, and whether it may still commit.
  datatype Work = Idle | Computing(id: nat, noCommit: bool)

  datatype Kind = Vacant | Resident | Tombstone

  datatype EntryRow = EntryRow(
    kind: Kind, mustTerminalize: bool, lineage: nat, parent: nat, successor: nat, page: nat,
    state: Option<State>, memo: Option<string>, work: Work, stateBytes: nat, memoBytes: nat)

  const VACANT_ENTRY := EntryRow(Vacant, false, NO_REF, NO_REF, NO_REF, 0, None, None, Idle, 0, 0)

  datatype Flags = Clear | Provisional | Publishing | Published | RollbackPending

  datatype LineageRow = LineageRow(
    flags: Flags, id: nat, entryHead: nat, pins: nat, resident: nat, tombstones: nat,
    workExpiresAt: int, commitDeadline: int, protectedUntil: int,
    reservedSlots: nat, reservedBytes: nat, dynamicBytes: nat, hasRoot: bool, shared: Option<nat>, sharedBytes: nat)

  const VACANT_LINEAGE := LineageRow(Clear, 0, NO_REF, 0, 0, 0, 0, 0, 0, 0, 0, 0, false, None, 0)

  function AddDuration(nanos: int, duration: int): int {
    if duration > 0 && nanos > MAX_INT64 - duration then MAX_INT64 else nanos + duration
  }

  function CheckedMul(left: nat, right: nat): Option<nat> {
    if left != 0 && right > MAX_UINT64 / left then None else Some(left * right)
  }

  // ---------------------------------------------------------------- fixed layout

  // nextPowerOfTwo, from a power of two that is not too large yet.
  function PowerFrom(power: nat, value: nat): (r: nat)
    requires 0 < power && (power == 1 || power < 2 * value)
    ensures r >= value && (r == power || r < 2 * value)
    decreases value - power
  {
    if power >= value then power else PowerFrom(2 * power, value)
  }

  // The slots of each index: the least power of two that is at least twice the capacity.
  function IndexSlots(maxEntries: nat): (r: nat)
    ensures r >= 2 * maxEntries && r >= 1
  {
    PowerFrom(1, 2 * maxEntries)
  }

  // ContainerLayout on a machine with eight-byte words: parallel columns, slice descriptors
  // and scalars.
  function LayoutBytes(maxEntries: nat): nat {
    IndexSlots(maxEntries) * (25 + 17) + maxEntries * (44 + 5 * WORD_BYTES) + maxEntries * (107 + 3 * WORD_BYTES)
    + 43 * 3 * WORD_BYTES + LayoutScalars()
  }

  function LayoutScalars(): nat {
    8 * 3 + 16 + RoundUp(8 + 20 * 8 + 3 * WORD_BYTES + 32 + 4 * WORD_BYTES + 10 * 8 + 3 * 8 + 1 + 8)
  }

  function RoundUp(value: nat): nat { (value + WORD_BYTES - 1) / WORD_BYTES * WORD_BYTES }

  // What initialize and the container layout demand of a configuration.
  predicate Configured(cfg: Config) {
    && 0 < cfg.maxEntries <= NO_REF && cfg.ttl > 0 && cfg.maxEntryBytes > 0 && cfg.maxTotalBytes > 0 && cfg.maxPages > 0
    && cfg.maxEntryBytes <= cfg.maxTotalBytes <= MAX_UINT64 && IndexSlots(cfg.maxEntries) <= NO_REF
  }

  // ---------------------------------------------------------------- one lineage

  // A lineage: its arena index, its columns and the rows of its entries, oldest page first.
  datatype Item = Item(ref: nat, row: LineageRow, chain: seq<EntryRow>)

  function ChainBytes(chain: seq<EntryRow>): nat {
    if chain == [] then 0 else ChainBytes(chain[..|chain| - 1]) + EntryBytes(chain[|chain| - 1])
  }

  function EntryBytes(entry: EntryRow): nat { entry.stateBytes + entry.memoBytes }

  function CountKind(chain: seq<EntryRow>, kind: Kind): (n: nat)
    ensures n <= |chain|
  {
    if chain == [] then 0
    else CountKind(chain[..|chain| - 1], kind) + (if chain[|chain| - 1].kind == kind then 1 else 0)
  }

  function CountWork(chain: seq<EntryRow>): (n: nat)
    ensures n <= |chain|
  {
    if chain == [] then 0
    else CountWork(chain[..|chain| - 1]) + (if chain[|chain| - 1].work.Computing? then 1 else 0)
  }

  function RootBytes(row: LineageRow): nat { if row.hasRoot then WORD_BYTES else 0 }

  // The accounting law of one lineage.
  ghost predicate Accounted(it: Item) {
    && it.row.dynamicBytes == RootBytes(it.row) + it.row.sharedBytes + ChainBytes(it.chain) + it.row.reservedBytes
    && it.row.resident + it.row.tombstones == |it.chain|
    && it.row.resident == CountKind(it.chain, Resident)
    && it.row.pins == CountWork(it.chain)
  }

  // What the protocol maintains of one lineage: a memo is set together with its successor, and
  // pages stay in bound.
  ghost predicate WellRun(cfg: Config, it: Item) {
    && it.chain != [] && |it.chain| <= cfg.maxPages - 1
    && (forall k :: 0 <= k < |it.chain| ==> it.chain[k].page == k && it.chain[k].kind != Vacant
                                            && it.chain[k].state.Some?
                                            && (it.chain[k].memo.Some? <==> k + 1 < |it.chain|)
                                            && (it.chain[k].memo.None? ==> it.chain[k].memoBytes == 0))
  }

  // Whenever the registry lock is free, a lineage out of phase is one that waits for a
  // computation to end: no rolled-back lineage leaks. And a computation that may not commit
  // belongs to a lineage that is rolled back.
  ghost predicate Settled(items: seq<Item>) {
    forall k :: 0 <= k < |items| ==> SettledItem(items[k])
  }

  ghost predicate SettledItem(it: Item) {
    (InPhase(it.row) || it.row.pins > 0) && Barred(it)
  }

  ghost predicate Barred(it: Item) {
    forall k :: 0 <= k < |it.chain| && it.chain[k].work.Computing? && it.chain[k].work.noCommit ==>
      it.row.flags == RollbackPending
  }

  predicate InPhase(row: LineageRow) { row.flags != Clear && row.flags != RollbackPending }

  // A project or search lineage, which shares nothing, keeps one reserved slot until the step
  // that must be its last.
  ghost predicate Credited(items: seq<Item>) {
    forall k :: 0 <= k < |items| ==> CreditedItem(items[k])
  }

  predicate CreditedItem(it: Item) { it.row.shared.None? ==> HoldsCredit(it) }

  predicate HoldsCredit(it: Item) {
    it.chain != [] && (it.row.reservedSlots > 0 || it.chain[|it.chain| - 1].mustTerminalize)
  }

  // The identifiers of the published lineages.
  ghost function PublishedIds(items: seq<Item>): set<nat> {
    set it | it in items && it.row.flags == Published :: it.row.id
  }

  // What a section keeps of the view: no lineage leaks, credit is kept if the section is frugal,
  // and no lineage is published but the announced ones.
  ghost predicate KeptBy(before: seq<Item>, after: seq<Item>, frugal: bool, announced: set<nat>) {
    && (Settled(before) ==> Settled(after))
    && (frugal && Credited(before) ==> Credited(after))
    && PublishedIds(after) <= PublishedIds(before) + announced
  }

  ghost predicate Kept(before: seq<Item>, after: seq<Item>) { KeptBy(before, after, true, {}) }

  lemma KeptRefl(items: seq<Item>, frugal: bool, announced: set<nat>)
    ensures KeptBy(items, items, frugal, announced)
  {
  }

  lemma KeptTrans(a: seq<Item>, b: seq<Item>, c: seq<Item>, first: bool, second: bool)
    requires KeptBy(a, b, first, {}) && KeptBy(b, c, second, {})
    ensures KeptBy(a, c, first && second, {})
  {
    hide Settled, Credited, PublishedIds;
  }

  lemma KeptWeakens(a: seq<Item>, b: seq<Item>, frugal: bool)
    requires Kept(a, b)
    ensures KeptBy(a, b, frugal, {})
  {
    hide Settled, Credited, PublishedIds;
  }

  // An item that may take the place of another.
  ghost predicate Tame(a: Item, b: Item) {
    && (SettledItem(a) ==> SettledItem(b)) && (CreditedItem(a) ==> CreditedItem(b))
    && (b.row.flags == Published ==> a.row.flags == Published && a.row.id == b.row.id)
  }

  lemma KeptUpdate(items: seq<Item>, p: nat, it: Item)
    requires p < |items| && Tame(items[p], it)
    ensures Kept(items, items[p := it])
  {
    hide SettledItem, CreditedItem;
    forall x | x in items[p := it] && x.row.flags == Published ensures x.row.id in PublishedIds(items) {
      assert x in items || x == it;
      assert items[p] in items;
    }
  }

  lemma KeptSubset(items: seq<Item>, rest: seq<Item>)
    requires forall x :: x in rest ==> x in items
    ensures Kept(items, rest)
  {
    hide SettledItem, CreditedItem;
    forall k | 0 <= k < |rest| ensures exists j :: 0 <= j < |items| && items[j] == rest[k] {
      assert rest[k] in rest;
    }
  }

  // A lineage comes to the front, new or in the place of one that was in the view.
  lemma KeptInFront(items: seq<Item>, rest: seq<Item>, it: Item, frugal: bool)
    requires forall x :: x in rest ==> x in items
    requires (Settled(items) ==> SettledItem(it)) && (frugal && Credited(items) ==> CreditedItem(it))
    requires it.row.flags == Published ==> it.row.id in PublishedIds(items)
    ensures KeptBy(items, [it] + rest, frugal, {})
  {
    KeptSubset(items, rest);
    hide SettledItem, CreditedItem;
    forall x | x in [it] + rest && x.row.flags == Published ensures x.row.id in PublishedIds(items) {
      if x in rest { assert x.row.id in PublishedIds(rest); }
    }
  }

  // ---------------------------------------------------------------- totals

  datatype Totals = Totals(slots: nat, entries: nat, lineages: nat, bytes: nat)

  function Entries(row: LineageRow): nat { row.resident + row.tombstones }

  function Slots(row: LineageRow): nat { Entries(row) + row.reservedSlots }

  function Weight(row: LineageRow): Totals { Totals(Slots(row), Entries(row), 1, row.dynamicBytes) }

  function Plus(a: Totals, b: Totals): Totals {
    Totals(a.slots + b.slots, a.entries + b.entries, a.lineages + b.lineages, a.bytes + b.bytes)
  }

  predicate Covers(a: Totals, b: Totals) {
    a.slots >= b.slots && a.entries >= b.entries && a.lineages >= b.lineages && a.bytes >= b.bytes
  }

  function Minus(a: Totals, b: Totals): Totals
    requires Covers(a, b)
  {
    Totals(a.slots - b.slots, a.entries - b.entries, a.lineages - b.lineages, a.bytes - b.bytes)
  }

  function Sum(items: seq<Item>): Totals {
    if items == [] then Totals(0, 0, 0, 0) else Plus(Weight(items[0].row), Sum(items[1..]))
  }

  lemma PlusAssociates(a: Totals, b: Totals, c: Totals)
    ensures Plus(Plus(a, b), c) == Plus(a, Plus(b, c)) && Plus(a, b) == Plus(b, a)
  {
  }

  lemma {:induction false} SumConcat(a: seq<Item>, b: seq<Item>)
    ensures Sum(a + b) == Plus(Sum(a), Sum(b))
  {
    if a == [] {
      assert a + b == b;
    } else {
      var ab := a + b;
      assert ab[0] == a[0] && ab[1..] == a[1..] + b;
      SumConcat(a[1..], b);
      PlusAssociates(Weight(a[0].row), Sum(a[1..]), Sum(b));
    }
  }

  lemma {:induction false} SumSplit(items: seq<Item>, p: nat)
    requires p < |items|
    ensures Sum(items) == Plus(Sum(items[..p] + items[p + 1..]), Weight(items[p].row))
    ensures Covers(Sum(items), Weight(items[p].row))
  {
    var rest := items[..p] + items[p + 1..];
    if p == 0 {
      assert rest == items[1..];
    } else {
      SumSplit(items[1..], p - 1);
      assert rest[0] == items[0] && rest[1..] == items[1..][..p - 1] + items[1..][p..];
    }
  }

  lemma SumUpdate(items: seq<Item>, p: nat, it: Item)
    requires p < |items|
    ensures Covers(Plus(Sum(items), Weight(it.row)), Weight(items[p].row))
    ensures Sum(items[p := it]) == Minus(Plus(Sum(items), Weight(it.row)), Weight(items[p].row))
  {
    SumSplit(items, p);
    SumSplit(items[p := it], p);
    assert items[p := it][..p] + items[p := it][p + 1..] == items[..p] + items[p + 1..];
  }

  // Reserved slots are slots no entry uses yet.
  lemma {:induction false} ReservedCounts(items: seq<Item>, p: nat)
    requires p < |items|
    ensures Sum(items).slots >= Sum(items).entries + items[p].row.reservedSlots
  {
    if p > 0 {
      ReservedCounts(items[1..], p - 1);
    } else {
      SlotsCoverEntries(items[1..]);
    }
  }

  lemma {:induction false} SlotsCoverEntries(items: seq<Item>)
    ensures Sum(items).slots >= Sum(items).entries
  {
    if items != [] { SlotsCoverEntries(items[1..]); }
  }

  lemma SumCountsLineages(items: seq<Item>)
    ensures Sum(items).lineages == |items|
  {
  }

  // ---------------------------------------------------------------- admission and eviction

  // fitsValues: the cost fits beside what is used, and both indexes and arenas have room.
  predicate Fits(cfg: Config, t: Totals, slots: nat, bytes: nat) {
    && slots <= cfg.maxEntries && t.slots <= cfg.maxEntries - slots
    && bytes <= cfg.maxTotalBytes && t.bytes <= cfg.maxTotalBytes - bytes
    && t.entries < cfg.maxEntries && t.lineages < cfg.maxEntries
  }

  // Published, unpinned and past its hand-off protection.
  predicate Evictable(row: LineageRow, now: int) {
    row.flags == Published && row.pins == 0 && now >= row.protectedUntil
  }

  predicate Candidate(it: Item, now: int, exclude: nat) {
    it.ref != exclude && Evictable(it.row, now)
  }

  // The candidates for eviction, least recently used first.
  function Victims(items: seq<Item>, now: int, exclude: nat): (v: seq<Item>)
    ensures |v| <= |items|
  {
    if items == [] then []
    else if Candidate(items[|items| - 1], now, exclude)
    then [items[|items| - 1]] + Victims(items[..|items| - 1], now, exclude)
    else Victims(items[..|items| - 1], now, exclude)
  }

  lemma {:induction false} VictimsCovered(items: seq<Item>, now: int, exclude: nat, k: nat)
    requires k <= |Victims(items, now, exclude)|
    ensures Covers(Sum(items), Sum(Victims(items, now, exclude)[..k]))
  {
    if items != [] {
      var front, last := items[..|items| - 1], items[|items| - 1];
      SumSplit(items, |items| - 1);
      assert front + items[|items|..] == front;
      if Candidate(last, now, exclude) {
        if k > 0 {
          VictimsCovered(front, now, exclude, k - 1);
          assert Victims(items, now, exclude)[..k] == [last] + Victims(front, now, exclude)[..k - 1];
        }
      } else {
        VictimsCovered(front, now, exclude, k);
      }
    }
  }

  // The totals that remain after the first k candidates are gone; base is what no lineage holds.
  ghost function TotalsAfter(items: seq<Item>, base: nat, now: int, exclude: nat, k: nat): Totals
    requires k <= |Victims(items, now, exclude)|
  {
    VictimsCovered(items, now, exclude, k);
    var t := Minus(Sum(items), Sum(Victims(items, now, exclude)[..k]));
    t.(bytes := base + t.bytes)
  }

  // Evicting the first k candidates makes room.
  ghost predicate RoomAfter(cfg: Config, items: seq<Item>, base: nat, slots: nat, bytes: nat, now: int, exclude: nat,
                            k: nat) {
    k <= |Victims(items, now, exclude)| && Fits(cfg, TotalsAfter(items, base, now, exclude, k), slots, bytes)
  }

  // Some number of evictions makes room.
  ghost predicate Admissible(cfg: Config, items: seq<Item>, base: nat, slots: nat, bytes: nat, now: int, exclude: nat) {
    exists k :: RoomAfter(cfg, items, base, slots, bytes, now, exclude, k)
  }

  // The least number of evictions that makes room.
  ghost predicate LeastRoom(cfg: Config, items: seq<Item>, base: nat, slots: nat, bytes: nat, now: int, exclude: nat,
                            k: nat) {
    && RoomAfter(cfg, items, base, slots, bytes, now, exclude, k)
    && forall j :: 0 <= j < k ==> !RoomAfter(cfg, items, base, slots, bytes, now, exclude, j)
  }

  // ---------------------------------------------------------------- removing lineages from the view

  function Removed(items: seq<Item>, gone: set<nat>): (rest: seq<Item>)
  {
    if items == [] then []
    else if items[0].ref in gone then Removed(items[1..], gone)
    else [items[0]] + Removed(items[1..], gone)
  }

  ghost predicate DistinctRefs(items: seq<Item>) {
    forall i, j :: 0 <= i < j < |items| ==> items[i].ref != items[j].ref
  }

  lemma {:induction false} RemovedNone(items: seq<Item>, gone: set<nat>)
    requires forall i :: 0 <= i < |items| ==> items[i].ref !in gone
    ensures Removed(items, gone) == items
  {
    if items != [] { RemovedNone(items[1..], gone); }
  }

  lemma {:induction false} RemovedOne(items: seq<Item>, p: nat)
    requires p < |items| && DistinctRefs(items)
    ensures Removed(items, {items[p].ref}) == items[..p] + items[p + 1..]
  {
    var rest := items[..p] + items[p + 1..];
    if p == 0 {
      RemovedNone(items[1..], {items[0].ref});
      assert rest == items[1..];
    } else {
      RemovedOne(items[1..], p - 1);
      assert rest == [items[0]] + (items[1..][..p - 1] + items[1..][p..]);
    }
  }

  lemma {:induction false} RemovedTwice(items: seq<Item>, a: set<nat>, b: set<nat>)
    ensures Removed(Removed(items, a), b) == Removed(items, a + b)
  {
    if items != [] {
      RemovedTwice(items[1..], a, b);
    }
  }

  lemma {:induction false} RemovedSubset(items: seq<Item>, gone: set<nat>)
    ensures forall it :: it in Removed(items, gone) ==> it in items
  {
    if items != [] { RemovedSubset(items[1..], gone); }
  }

  // The item the eviction loop picks: the last candidate, i.e. the least recently used one.
  ghost predicate LastCandidate(items: seq<Item>, now: int, exclude: nat, p: nat) {
    && p < |items| && Candidate(items[p], now, exclude)
    && forall j :: p < j < |items| ==> !Candidate(items[j], now, exclude)
  }

  lemma {:induction false} VictimsSkip(items: seq<Item>, now: int, exclude: nat, p: nat)
    requires p <= |items| && forall j :: p <= j < |items| ==> !Candidate(items[j], now, exclude)
    ensures Victims(items, now, exclude) == Victims(items[..p], now, exclude)
  {
    if p < |items| {
      VictimsSkip(items[..|items| - 1], now, exclude, p);
      assert items[..|items| - 1][..p] == items[..p];
    } else {
      assert items[..p] == items;
    }
  }

  // It heads the list of victims, and removing it leaves the other victims in their order.
  lemma LastCandidateIsNext(items: seq<Item>, now: int, exclude: nat, p: nat)
    requires LastCandidate(items, now, exclude, p)
    ensures var v := Victims(items, now, exclude);
            v != [] && v[0] == items[p] && Victims(items[..p] + items[p + 1..], now, exclude) == v[1..]
  {
    var rest := items[..p] + items[p + 1..];
    VictimsSkip(items, now, exclude, p + 1);
    assert items[..p + 1][..p] == items[..p];
    forall j | p <= j < |rest| ensures !Candidate(rest[j], now, exclude) {
      assert rest[j] == items[j + 1];
    }
    VictimsSkip(rest, now, exclude, p);
    assert rest[..p] == items[..p];
  }

  lemma NoCandidateNoVictim(items: seq<Item>, now: int, exclude: nat)
    requires forall j :: 0 <= j < |items| ==> !Candidate(items[j], now, exclude)
    ensures Victims(items, now, exclude) == []
  {
    VictimsSkip(items, now, exclude, 0);
  }

  // One eviction of the loop is one step of the plan.
  lemma EvictionStep(items: seq<Item>, base: nat, now: int, exclude: nat, p: nat, k: nat)
    requires LastCandidate(items, now, exclude, p) && k < |Victims(items, now, exclude)|
    ensures var rest := items[..p] + items[p + 1..];
            && k <= |Victims(rest, now, exclude)|
            && TotalsAfter(rest, base, now, exclude, k) == TotalsAfter(items, base, now, exclude, k + 1)
  {
    var rest := items[..p] + items[p + 1..];
    var v := Victims(items, now, exclude);
    LastCandidateIsNext(items, now, exclude, p);
    VictimsCovered(items, now, exclude, k + 1);
    VictimsCovered(rest, now, exclude, k);
    SumSplit(items, p);
    assert v[..k + 1] == [v[0]] + v[1..][..k];
    SumConcat([v[0]], v[1..][..k]);
    assert Sum([v[0]]) == Weight(v[0].row);
  }

  // So the plan for the rest is the plan for the whole, one eviction shorter.
  lemma PlanStep(cfg: Config, items: seq<Item>, base: nat, slots: nat, bytes: nat, now: int, exclude: nat, p: nat,
                 k: nat)
    requires LastCandidate(items, now, exclude, p)
    requires !RoomAfter(cfg, items, base, slots, bytes, now, exclude, 0)
    ensures var rest := items[..p] + items[p + 1..];
            LeastRoom(cfg, rest, base, slots, bytes, now, exclude, k)
            <==> LeastRoom(cfg, items, base, slots, bytes, now, exclude, k + 1)
  {
    var rest := items[..p] + items[p + 1..];
    LastCandidateIsNext(items, now, exclude, p);
    forall j: nat
      ensures RoomAfter(cfg, rest, base, slots, bytes, now, exclude, j)
          <==> RoomAfter(cfg, items, base, slots, bytes, now, exclude, j + 1)
    {
      if j < |Victims(items, now, exclude)| { EvictionStep(items, base, now, exclude, p, j); }
    }
    if LeastRoom(cfg, rest, base, slots, bytes, now, exclude, k) {
      forall j | 0 <= j < k + 1 ensures !RoomAfter(cfg, items, base, slots, bytes, now, exclude, j) {
        if j > 0 { assert !RoomAfter(cfg, rest, base, slots, bytes, now, exclude, j - 1); }
      }
    }
    if LeastRoom(cfg, items, base, slots, bytes, now, exclude, k + 1) {
      forall j | 0 <= j < k ensures !RoomAfter(cfg, rest, base, slots, bytes, now, exclude, j) {
        assert !RoomAfter(cfg, items, base, slots, bytes, now, exclude, j + 1);
      }
    }
  }

  lemma {:induction false} LeastExists(cfg: Config, items: seq<Item>, base: nat, slots: nat, bytes: nat, now: int,
                                       exclude: nat, k: nat) returns (least: nat)
    requires RoomAfter(cfg, items, base, slots, bytes, now, exclude, k)
    ensures least <= k && LeastRoom(cfg, items, base, slots, bytes, now, exclude, least)
  {
    if j :| 0 <= j < k && RoomAfter(cfg, items, base, slots, bytes, now, exclude, j) {
      least := LeastExists(cfg, items, base, slots, bytes, now, exclude, j);
    } else {
      least := k;
    }
  }

  // ---------------------------------------------------------------- a new lineage

  datatype SharedAllocation = SharedAllocation(digest: nat, footprint: nat)

  datatype InitialRequest = InitialRequest(
    state: State, hasRoot: bool, shared: Option<SharedAllocation>, reservation: ReservationUse)

  function SharedBytes(request: InitialRequest): nat {
    if request.shared.Some? then request.shared.value.footprint else 0
  }

  // LineageBytes of a request: what its lineage holds beyond the fixed layout.
  function RequestBytes(request: InitialRequest): nat {
    request.state.footprint + SharedBytes(request) + (if request.hasRoot then WORD_BYTES else 0)
      + request.reservation.bytes
  }

  function RequestSlots(request: InitialRequest): nat { 1 + request.reservation.slots }

  // The checks of commitInitial that need no registry state.
  function RequestError(cfg: Config, request: InitialRequest): Option<Code> {
    if request.state.tool == Unknown || request.state.cwdId == 0 || request.state.cwdId > MAX_CWD_ID
       || request.state.footprint > cfg.maxEntryBytes then Some(InvalidInput)
    else
      var limit := CheckedMul(request.reservation.slots, cfg.maxEntryBytes);
      if limit.None? || CheckedMul(limit.value, 2).None? || request.reservation.bytes > CheckedMul(limit.value, 2).value
      then Some(BudgetExceeded)
      else if RequestBytes(request) > MAX_UINT64 || RequestSlots(request) > MAX_UINT64 then Some(BudgetExceeded)
      else None
  }

  function NewRow(cfg: Config, request: InitialRequest, id: nat, entry: nat, now: int): LineageRow {
    var expires := AddDuration(now, cfg.ttl);
    VACANT_LINEAGE.(
      flags := Provisional, id := id, entryHead := entry, resident := 1,
      workExpiresAt := expires, commitDeadline := AddDuration(expires, HANDOFF_GRACE),
      reservedSlots := request.reservation.slots, reservedBytes := request.reservation.bytes,
      dynamicBytes := RequestBytes(request), hasRoot := request.hasRoot,
      shared := (if request.shared.Some? then Some(request.shared.value.digest) else None),
      sharedBytes := SharedBytes(request))
  }

  function NewEntry(request: InitialRequest, lineage: nat): EntryRow {
    VACANT_ENTRY.(kind := Resident, lineage := lineage, state := Some(request.state),
                  stateBytes := request.state.footprint)
  }

  function NewItem(cfg: Config, request: InitialRequest, id: nat, lineage: nat, entry: nat, now: int): Item {
    Item(lineage, NewRow(cfg, request, id, entry, now), [NewEntry(request, lineage)])
  }

  lemma NewItemOk(cfg: Config, request: InitialRequest, id: nat, lineage: nat, entry: nat, now: int)
    requires cfg.maxPages >= 2
    ensures var it := NewItem(cfg, request, id, lineage, entry, now);
            && Accounted(it) && WellRun(cfg, it)
            && Slots(it.row) == RequestSlots(request) && it.row.dynamicBytes == RequestBytes(request)
  {
    var chain := [NewEntry(request, lineage)];
    assert chain[..0] == [];
  }

  // A request for a lineage that shares nothing reserves a slot.
  predicate Funded(request: InitialRequest) { request.shared.Some? || request.reservation.slots > 0 }

  // ---------------------------------------------------------------- one step of a lineage

  predicate ValidText(text: string) {
    && text != "" && text[|text| - 1] == '\n'
    && (|text| >= 2 ==> text[|text| - 2] != '\n')
  }

  // resultFootprint of a text result: five words and the text.
  function ResultFootprint(text: string): nat { 5 * WORD_BYTES + |text| }

  function StepBytes(successor: State, text: string): nat { successor.footprint + ResultFootprint(text) }

  predicate Live(flags: Flags) { flags == Publishing || flags == Published }

  // expiredLocked.
  predicate Expired(row: LineageRow, now: int) {
    now >= row.commitDeadline || (now >= row.workExpiresAt && now >= row.protectedUntil)
  }

  // What materializeSuccessor demands of the lineage and its last entry, reservations aside:
  // in phase, before its work deadline, no successor yet, within the page and entry limits,
  // and a successor of the same tool, directory and shared allocation.
  predicate StepAllowed(cfg: Config, it: Item, successor: State, text: string, use: ReservationUse, now: int)
    requires it.chain != []
  {
    var last := it.chain[|it.chain| - 1];
    && ValidText(text) && use.bytes == StepBytes(successor, text) <= MAX_UINT64
    && Live(it.row.flags) && !Expired(it.row, now) && now < it.row.workExpiresAt
    && !last.mustTerminalize && last.page + 3 <= cfg.maxPages
    && last.state.Some? && successor.tool == last.state.value.tool && successor.tool != Unknown
    && successor.cwdId == last.state.value.cwdId && successor.cwdId != 0
    && successor.footprint <= cfg.maxEntryBytes && ResultFootprint(text) <= cfg.maxEntryBytes
    && last.stateBytes + ResultFootprint(text) <= cfg.maxEntryBytes
    && (if it.row.shared.Some?
        then successor.shared == it.row.shared && use.kind == ReadPagePlan && use.slots == 1
        else successor.shared == None && use.kind == BroadSummaryFinal && use.slots <= 1)
  }

  // A prepaid step finds its reservation; the last page of a read plan uses up its bytes.
  predicate Prepaid(row: LineageRow, use: ReservationUse) {
    && row.reservedSlots > 0 && use.bytes <= row.reservedBytes
    && (use.kind == ReadPagePlan && row.reservedSlots == 1 ==> use.bytes == row.reservedBytes)
  }

  // The arguments of one step.
  datatype Step = Step(successor: State, text: string, use: ReservationUse)

  // A lineage that shares nothing spends its slot exactly on the step that must be its last.
  predicate Frugal(use: ReservationUse) {
    use.kind == ReadPagePlan || (use.slots == 1 <==> use.mustTerminalize)
  }

  // The kind of reservation is that of the lineage, and its last entry may have a child.
  predicate Suits(it: Item, use: ReservationUse)
    requires it.chain != []
  {
    (it.row.shared.Some? <==> use.kind == ReadPagePlan) && !it.chain[|it.chain| - 1].mustTerminalize
  }

  // Why materializeSuccessor refuses arguments that fit no lineage.
  function StepMalformed(step: Step): Option<Code> {
    if !ValidText(step.text) then Some(InvalidInput)
    else if StepBytes(step.successor, step.text) > MAX_UINT64 || StepBytes(step.successor, step.text) != step.use.bytes
    then Some(BudgetExceeded)
    else None
  }

  // Why it refuses a step of this lineage, in phase and not expired, from this entry: its checks
  // up to the reservation, in their order.
  function StepObjection(cfg: Config, line: LineageRow, last: EntryRow, step: Step, now: int): Option<Code> {
    if last.memo.Some? || last.successor != NO_REF || last.mustTerminalize then Some(Invariant)
    else if last.page + 3 > cfg.maxPages then Some(BudgetExceeded)
    else if last.state.None? || step.successor.tool != last.state.value.tool
            || step.successor.cwdId != last.state.value.cwdId
            || step.successor.tool == Unknown || step.successor.cwdId == 0 then Some(InvalidInput)
    else if step.successor.footprint > cfg.maxEntryBytes || ResultFootprint(step.text) > cfg.maxEntryBytes
            || last.stateBytes > cfg.maxEntryBytes - ResultFootprint(step.text) then Some(BudgetExceeded)
    else if now >= line.workExpiresAt then Some(CursorExpired)
    else if line.shared.Some?
            && (step.successor.shared != line.shared || step.use.kind != ReadPagePlan || step.use.slots != 1)
    then Some(InvalidInput)
    else if line.shared.None?
            && (step.successor.shared.Some? || step.use.kind != BroadSummaryFinal || step.use.slots > 1)
    then Some(InvalidInput)
    else None
  }

  lemma ObjectionsMean(cfg: Config, line: LineageRow, last: EntryRow, step: Step, now: int)
    ensures StepObjection(cfg, line, last, step, now).None? ==>
      && last.successor == NO_REF && last.memo.None?
      && (line.shared.Some? ==> step.use.slots == 1)
      && (step.use.kind == ReadPagePlan <==> step.use.kind != BroadSummaryFinal)
  {
  }

  lemma MalformedIsRefused(cfg: Config, it: Item, step: Step, now: int)
    ensures it.chain != [] && StepAllowed(cfg, it, step.successor, step.text, step.use, now) ==>
      StepMalformed(step).None?
  {
  }

  // These checks and the phase are together what a step demands of its lineage.
  lemma ObjectionsDecide(cfg: Config, it: Item, step: Step, now: int)
    requires it.chain != []
    ensures StepAllowed(cfg, it, step.successor, step.text, step.use, now) ==>
      Live(it.row.flags) && !Expired(it.row, now)
    ensures var last := it.chain[|it.chain| - 1];
            last.successor == NO_REF && last.memo.None? ==>
              (StepAllowed(cfg, it, step.successor, step.text, step.use, now) <==>
                 && Live(it.row.flags) && !Expired(it.row, now)
                 && StepMalformed(step).None? && StepObjection(cfg, it.row, last, step, now).None?)
  {
  }

  lemma AllowedSuits(cfg: Config, it: Item, step: Step, now: int)
    requires it.chain != [] && StepAllowed(cfg, it, step.successor, step.text, step.use, now)
    ensures Suits(it, step.use)
  {
  }

  // What a prepaid step gives back besides its own slot: the slack of a final summary.
  function Slack(row: LineageRow, use: ReservationUse): nat {
    if use.slots == 1 && use.kind == BroadSummaryFinal && row.reservedSlots == 1 && use.bytes <= row.reservedBytes
    then row.reservedBytes - use.bytes else 0
  }

  function ProtectedUntil(row: LineageRow, now: int): int {
    var grace := AddDuration(now, HANDOFF_GRACE);
    var bounded := if grace > row.commitDeadline then row.commitDeadline else grace;
    if bounded > row.protectedUntil then bounded else row.protectedUntil
  }

  predicate Growable(row: LineageRow, use: ReservationUse) {
    (use.slots == 1 ==> Prepaid(row, use)) && row.dynamicBytes >= Slack(row, use)
  }

  function GrownRow(row: LineageRow, use: ReservationUse, now: int): LineageRow
    requires Growable(row, use)
  {
    var grown := row.(resident := row.resident + 1, protectedUntil := ProtectedUntil(row, now));
    if use.slots == 1
    then grown.(reservedSlots := row.reservedSlots - 1,
                reservedBytes := row.reservedBytes - use.bytes - Slack(row, use),
                dynamicBytes := row.dynamicBytes - Slack(row, use))
    else grown.(dynamicBytes := row.dynamicBytes + use.bytes)
  }

  function ChildEntry(lineage: nat, page: nat, parent: nat, successor: State, use: ReservationUse): EntryRow {
    VACANT_ENTRY.(
      kind := Resident, mustTerminalize := use.mustTerminalize, lineage := lineage, parent := parent,
      page := page, state := Some(successor), stateBytes := successor.footprint)
  }

  function ParentEntry(parent: EntryRow, child: nat, text: string): EntryRow {
    parent.(memo := Some(text), memoBytes := ResultFootprint(text), successor := child)
  }

  // The lineage after the step: the parent memoizes its result, the child is appended.
  function Grown(it: Item, parent: nat, child: nat, step: Step, now: int): Item
    requires it.chain != [] && Growable(it.row, step.use)
  {
    var last := |it.chain| - 1;
    Item(it.ref, GrownRow(it.row, step.use, now),
         it.chain[last := ParentEntry(it.chain[last], child, step.text)]
         + [ChildEntry(it.ref, |it.chain|, parent, step.successor, step.use)])
  }

  lemma GrownChain(chain: seq<EntryRow>, last: EntryRow, child: EntryRow, kind: Kind)
    requires chain != []
    ensures var c := chain[|chain| - 1 := last] + [child];
            && ChainBytes(c) == ChainBytes(chain) - EntryBytes(chain[|chain| - 1]) + EntryBytes(last)
              + EntryBytes(child)
            && CountWork(c) == CountWork(chain) - (if chain[|chain| - 1].work.Computing? then 1 else 0)
                 + (if last.work.Computing? then 1 else 0) + (if child.work.Computing? then 1 else 0)
            && CountKind(c, kind) == CountKind(chain, kind) - (if chain[|chain| - 1].kind == kind then 1 else 0)
                 + (if last.kind == kind then 1 else 0) + (if child.kind == kind then 1 else 0)
  {
    var d := chain[|chain| - 1 := last];
    var c := d + [child];
    assert c[..|c| - 1] == d && d[..|d| - 1] == chain[..|chain| - 1];
  }

  // A step keeps the accounting law. A prepaid step moves reserved bytes into entries and
  // keeps the slots; only the slack of a final summary is given back.
  lemma GrownOk(cfg: Config, it: Item, parent: nat, child: nat, step: Step, now: int)
    requires Accounted(it) && WellRun(cfg, it) && StepAllowed(cfg, it, step.successor, step.text, step.use, now)
    requires step.use.slots == 1 ==> Prepaid(it.row, step.use)
    ensures Growable(it.row, step.use)
    ensures var it' := Grown(it, parent, child, step, now);
            && Accounted(it') && WellRun(cfg, it')
            && Slots(it'.row) == Slots(it.row) + (if step.use.slots == 1 then 0 else 1)
            && it'.row.dynamicBytes
                 == it.row.dynamicBytes + (if step.use.slots == 1 then 0 else step.use.bytes) - Slack(it.row, step.use)
  {
    GrownAccounted(cfg, it, parent, child, step, now);
    GrownRuns(cfg, it, parent, child, step, now);
    hide Accounted, WellRun, StepAllowed;
  }

  lemma GrownAccounted(cfg: Config, it: Item, parent: nat, child: nat, step: Step, now: int)
    requires Accounted(it) && WellRun(cfg, it) && StepAllowed(cfg, it, step.successor, step.text, step.use, now)
    requires step.use.slots == 1 ==> Prepaid(it.row, step.use)
    ensures Growable(it.row, step.use) && Accounted(Grown(it, parent, child, step, now))
  {
    assert it.row.dynamicBytes >= it.row.reservedBytes;
    var last := it.chain[|it.chain| - 1];
    GrownChain(it.chain, ParentEntry(last, child, step.text),
               ChildEntry(it.ref, |it.chain|, parent, step.successor, step.use), Resident);
  }

  lemma GrownRuns(cfg: Config, it: Item, parent: nat, child: nat, step: Step, now: int)
    requires WellRun(cfg, it) && StepAllowed(cfg, it, step.successor, step.text, step.use, now)
    requires Growable(it.row, step.use)
    ensures WellRun(cfg, Grown(it, parent, child, step, now))
  {
  }

  // ---------------------------------------------------------------- computations of a lineage

  lemma {:induction false} ChainUpdate(chain: seq<EntryRow>, k: nat, row: EntryRow, kind: Kind)
    requires k < |chain|
    ensures CountWork(chain[k := row])
            == CountWork(chain) - (if chain[k].work.Computing? then 1 else 0) + (if row.work.Computing? then 1 else 0)
    ensures CountKind(chain[k := row], kind)
            == CountKind(chain, kind) - (if chain[k].kind == kind then 1 else 0) + (if row.kind == kind then 1 else 0)
    ensures ChainBytes(chain[k := row]) == ChainBytes(chain) - EntryBytes(chain[k]) + EntryBytes(row)
  {
    var c := chain[k := row];
    if k < |chain| - 1 {
      ChainUpdate(chain[..|chain| - 1], k, row, kind);
      assert c[..|c| - 1] == chain[..|chain| - 1][k := row];
    } else {
      assert c[..|c| - 1] == chain[..|chain| - 1];
    }
  }

  // A running computation pins its lineage.
  lemma {:induction false} WorkCounted(chain: seq<EntryRow>, k: nat)
    requires k < |chain| && chain[k].work.Computing?
    ensures CountWork(chain) > 0
  {
    if k < |chain| - 1 { WorkCounted(chain[..|chain| - 1], k); }
  }

  // Continue starts a computation on entry k.
  function Started(it: Item, k: nat, id: nat): Item
    requires k < |it.chain|
  {
    it.(row := it.row.(pins := it.row.pins + 1), chain := it.chain[k := it.chain[k].(work := Computing(id, false))])
  }

  // tombstoneComputationLocked: the entry of a failed computation no longer counts as
  // resident, and its lineage is to be rolled back.
  function Buried(it: Item, k: nat): Item
    requires k < |it.chain|
  {
    if it.chain[k].kind == Resident && it.row.resident > 0
    then it.(row := it.row.(resident := it.row.resident - 1, tombstones := it.row.tombstones + 1,
                            flags := RollbackPending),
             chain := it.chain[k := it.chain[k].(kind := Tombstone)])
    else it.(row := it.row.(flags := RollbackPending))
  }

  // A computation ended: its entry is idle again and the lineage has one pin less.
  function Ended(it: Item, k: nat): Item
    requires k < |it.chain| && it.row.pins > 0
  {
    it.(row := it.row.(pins := it.row.pins - 1), chain := it.chain[k := it.chain[k].(work := Idle)])
  }

  lemma StartedOk(cfg: Config, it: Item, k: nat, id: nat)
    requires Accounted(it) && WellRun(cfg, it) && k < |it.chain| && it.chain[k].work.Idle?
    ensures Accounted(Started(it, k, id)) && WellRun(cfg, Started(it, k, id))
  {
    ChainUpdate(it.chain, k, it.chain[k].(work := Computing(id, false)), Resident);
  }

  lemma BuriedOk(cfg: Config, it: Item, k: nat)
    requires Accounted(it) && WellRun(cfg, it) && k < |it.chain|
    ensures Accounted(Buried(it, k)) && WellRun(cfg, Buried(it, k))
  {
    ChainUpdate(it.chain, k, it.chain[k].(kind := Tombstone), Resident);
  }

  lemma EndedOk(cfg: Config, it: Item, k: nat)
    requires Accounted(it) && WellRun(cfg, it) && k < |it.chain| && it.chain[k].work.Computing?
    ensures it.row.pins > 0 && Accounted(Ended(it, k)) && WellRun(cfg, Ended(it, k))
  {
    WorkCounted(it.chain, k);
    ChainUpdate(it.chain, k, it.chain[k].(work := Idle), Resident);
  }
}
