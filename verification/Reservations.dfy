// Prepaid continuations (internal/cursor/registry.go, successor.go; internal/navigation/read.go,
// dynamic.go): the two ways to open a lineage, and what the slots and bytes reserved at that
// moment guarantee for every later step.

module Reservations {
  import opened Wrappers
  import opened Arena
  import opened RegistryModel
  import opened RegistryState
  import opened RegistrySteps
  import Registry

  const MAX_UINT32: nat := 0xFFFF_FFFF

  // ---------------------------------------------------------------- opening a lineage

  datatype DynamicInitial = DynamicInitial(state: State, hasRoot: bool, summaryPlan: ReservationUse)

  datatype PageReservation = PageReservation(pages: nat, slots: nat, bytes: nat)

  datatype ReadInitial = ReadInitial(state: State, shared: SharedAllocation, pagePlan: PageReservation)

  function DynamicRequest(request: DynamicInitial): InitialRequest {
    InitialRequest(request.state, request.hasRoot, None, request.summaryPlan)
  }

  function ReadRequest(request: ReadInitial): InitialRequest {
    InitialRequest(request.state, false, Some(request.shared),
                   ReservationUse(ReadPagePlan, request.pagePlan.slots, request.pagePlan.bytes, false))
  }

  // A project or search lineage shares nothing and reserves one slot, for its final summary.
  predicate DynamicPlanned(cfg: Config, request: DynamicInitial) {
    && cfg.maxPages >= 2 && request.state.shared.None?
    && request.summaryPlan.kind == BroadSummaryFinal && request.summaryPlan.slots == 1
      && !request.summaryPlan.mustTerminalize
  }

  // A read lineage shares its plan and reserves a slot for every page after the first.
  predicate ReadPlanned(cfg: Config, request: ReadInitial) {
    && request.state.shared == Some(request.shared.digest)
    && 2 <= request.pagePlan.pages <= cfg.maxPages && request.pagePlan.slots == request.pagePlan.pages - 1
  }

  // A commit succeeds only if the request is well formed, the registry is open, the token is
  // new, identifiers are left, and evictions can make room.
  ghost predicate Acceptable(r: Registry.Registry, request: InitialRequest, token: Token, now: int)
    reads r.Repr
  {
    && RequestError(r.cfg, request).None? && !r.closed && token !in r.tokens.contents && r.nextLineageId != MAX_UINT64
    && Admissible(r.cfg, r.View(), r.baseBytes, RequestSlots(request), RequestBytes(request), now, NO_REF)
  }

  method CommitDynamicInitial(r: Registry.Registry, request: DynamicInitial, token: Token, now: int, transferred: bool)
    returns (outcome: Registry.CommitOutcome, ghost k: nat, ghost id: nat, ghost entry: nat)
    requires r.Valid() && r.Renewable()
    modifies r.Repr
    ensures outcome.Refused? <==>
      !(DynamicPlanned(r.cfg, request) && old(Acceptable(r, DynamicRequest(request), token, now)))
    ensures outcome.Refused? ==> unchanged(r.Repr)
    ensures !outcome.Refused? ==> (outcome.Committed? <==> transferred)
    ensures !outcome.Refused? ==>
      && LeastRoom(r.cfg, old(r.View()), old(r.baseBytes), RequestSlots(DynamicRequest(request)),
                   RequestBytes(DynamicRequest(request)), now, NO_REF, k)
      && var rest := Removed(old(r.View()), VictimRefs(old(r.View()), now, NO_REF, k));
         if transferred
         then r.View() == [NewItem(r.cfg, DynamicRequest(request), id, outcome.lineage.index, entry, now)] + rest
         else r.View() == rest
    ensures Kept(old(r.View()), r.View())
    ensures SameJobs(old(r.entries.cells[..]), r.entries.cells[..])
    ensures r.Valid()
  {
    hide Registry.Registry.Valid, Registry.Registry.View, RegistryState.Ok, Items, LeastRoom, Admissible;
    hide RequestError, NewItem, Removed, VictimRefs, KeptBy, SameJobs;
    k, id, entry := 0, 0, 0;
    KeptRefl(r.View(), true, {});
    SameJobsRefl(r.entries.cells[..]);
    if r.closed { return Registry.Refused(CursorExpired), k, id, entry; }
    if r.cfg.maxPages < 2 { return Registry.Refused(BudgetExceeded), k, id, entry; }
    if request.state.shared.Some? { return Registry.Refused(InvalidInput), k, id, entry; }
    if request.summaryPlan.kind != BroadSummaryFinal || request.summaryPlan.slots != 1
      || request.summaryPlan.mustTerminalize {
      return Registry.Refused(InvalidInput), k, id, entry;
    }
    outcome, k, id, entry := r.CommitInitial(DynamicRequest(request), token, now, transferred);
  }

  method CommitReadInitial(r: Registry.Registry, request: ReadInitial, token: Token, now: int, transferred: bool)
    returns (outcome: Registry.CommitOutcome, ghost k: nat, ghost id: nat, ghost entry: nat)
    requires r.Valid() && r.Renewable()
    modifies r.Repr
    ensures outcome.Refused? <==> !(ReadPlanned(r.cfg, request) && old(Acceptable(r, ReadRequest(request), token, now)))
    ensures outcome.Refused? ==> unchanged(r.Repr)
    ensures !outcome.Refused? ==> (outcome.Committed? <==> transferred)
    ensures !outcome.Refused? ==>
      && LeastRoom(r.cfg, old(r.View()), old(r.baseBytes), RequestSlots(ReadRequest(request)),
                   RequestBytes(ReadRequest(request)), now, NO_REF, k)
      && var rest := Removed(old(r.View()), VictimRefs(old(r.View()), now, NO_REF, k));
         if transferred
         then r.View() == [NewItem(r.cfg, ReadRequest(request), id, outcome.lineage.index, entry, now)] + rest
         else r.View() == rest
    ensures Kept(old(r.View()), r.View())
    ensures SameJobs(old(r.entries.cells[..]), r.entries.cells[..])
    ensures r.Valid()
  {
    hide Registry.Registry.Valid, Registry.Registry.View, RegistryState.Ok, Items, LeastRoom, Admissible;
    hide RequestError, NewItem, Removed, VictimRefs, KeptBy, SameJobs;
    k, id, entry := 0, 0, 0;
    KeptRefl(r.View(), true, {});
    SameJobsRefl(r.entries.cells[..]);
    if r.closed { return Registry.Refused(CursorExpired), k, id, entry; }
    if request.state.shared != Some(request.shared.digest) { return Registry.Refused(InvalidInput), k, id, entry; }
    if request.pagePlan.pages < 2 || request.pagePlan.pages > r.cfg.maxPages
      || request.pagePlan.slots != request.pagePlan.pages - 1 {
      return Registry.Refused(InvalidInput), k, id, entry;
    }
    outcome, k, id, entry := r.CommitInitial(ReadRequest(request), token, now, transferred);
  }

  // ---------------------------------------------------------------- the plan of a read

  // A page that a continuation delivers with a cursor: the state it hands on and the length of
  // its text, which does not depend on the cursor's digits.
  datatype Page = Page(successor: State, size: nat)

  function PageBytes(page: Page): nat { page.successor.footprint + 5 * WORD_BYTES + page.size }

  function PlanBytes(plan: seq<Page>): nat {
    if plan == [] then 0 else PageBytes(plan[0]) + PlanBytes(plan[1..])
  }

  lemma {:induction false} PlanBytesUpto(plan: seq<Page>, k: nat)
    requires k < |plan|
    ensures PlanBytes(plan[..k + 1]) == PlanBytes(plan[..k]) + PageBytes(plan[k])
  {
    if k == 0 {
      assert plan[..1][1..] == [];
    } else {
      PlanBytesUpto(plan[1..], k - 1);
      assert plan[..k + 1][1..] == plan[1..][..k] && plan[..k][1..] == plan[1..][..k - 1];
    }
  }

  lemma {:induction false} PlanBytesGrow(plan: seq<Page>, k: nat)
    requires k <= |plan|
    ensures PlanBytes(plan[..k]) <= PlanBytes(plan)
  {
    if k > 0 {
      PlanBytesGrow(plan[1..], k - 1);
      assert plan[..k][1..] == plan[1..][..k - 1];
    }
  }

  // readPageReservation, for a plan of |plan| + 2 pages: the first is delivered at once, the
  // last needs no cursor, and every page between them is one step of the lineage.
  method ReadPageReservation(plan: seq<Page>, cwdId: nat) returns (r: Option<PageReservation>)
    ensures r.Some? <==> 0 < cwdId <= MAX_CWD_ID && |plan| + 2 <= MAX_UINT32 && PlanBytes(plan) <= MAX_UINT64
    ensures r.Some? ==> r.value == PageReservation(|plan| + 2, |plan| + 1, PlanBytes(plan))
  {
    if cwdId == 0 || cwdId > MAX_CWD_ID || |plan| + 2 > MAX_UINT32 { return None; }
    var reserved, index := 0, 0;
    assert plan[..|plan|] == plan;
    while index < |plan|
      invariant 0 <= index <= |plan| && reserved == PlanBytes(plan[..index]) <= MAX_UINT64
    {
      PlanBytesUpto(plan, index);
      PlanBytesGrow(plan, index + 1);
      var bytes := PageBytes(plan[index]);
      if bytes > MAX_UINT64 || reserved > MAX_UINT64 - bytes { return None; }
      reserved := reserved + bytes;
      index := index + 1;
    }
    return Some(PageReservation(|plan| + 2, |plan| + 1, reserved));
  }

  // The state from which continuation page j is computed.
  function StateAt(initial: State, plan: seq<Page>, j: nat): State
    requires j <= |plan|
  {
    if j == 0 then initial else plan[j - 1].successor
  }

  // The plan respects the cap on a single entry, and its states belong to one shared plan.
  predicate PlanFits(cfg: Config, initial: State, plan: seq<Page>) {
    && |plan| + 2 <= cfg.maxPages && PlanBytes(plan) <= MAX_UINT64
    && initial.tool != Unknown && initial.cwdId != 0 && initial.shared.Some?
    && forall k :: 0 <= k < |plan| ==>
         && plan[k].successor.tool == initial.tool && plan[k].successor.cwdId == initial.cwdId
         && plan[k].successor.shared == initial.shared && plan[k].successor.footprint <= cfg.maxEntryBytes
         && StateAt(initial, plan, k).footprint + 5 * WORD_BYTES + plan[k].size <= cfg.maxEntryBytes
  }

  // The lineage has taken j steps of its plan: what it still holds in reserve is exactly what
  // the remaining steps need, plus the slot of the last page.
  predicate OnPlan(it: Item, initial: State, plan: seq<Page>, j: nat) {
    && j <= |plan| && |it.chain| == j + 1
    && it.row.reservedSlots == |plan| + 1 - j && it.row.reservedBytes == PlanBytes(plan[j..])
    && it.row.shared == initial.shared
    && it.chain[j].state == Some(StateAt(initial, plan, j))
      && it.chain[j].stateBytes == StateAt(initial, plan, j).footprint
    && !it.chain[j].mustTerminalize && it.chain[j].page == j
  }

  // A read lineage starts on its plan.
  lemma ReadStartsOnPlan(cfg: Config, request: ReadInitial, plan: seq<Page>, id: nat, l: nat, entry: nat, now: int)
    requires request.state.shared == Some(request.shared.digest)
    requires request.pagePlan == PageReservation(|plan| + 2, |plan| + 1, PlanBytes(plan))
    ensures OnPlan(NewItem(cfg, ReadRequest(request), id, l, entry, now), request.state, plan, 0)
    ensures PlanFits(cfg, request.state, plan) ==> ReadPlanned(cfg, request)
  {
    assert plan[0..] == plan;
  }

  function PlannedUse(page: Page): ReservationUse {
    ReservationUse(ReadPagePlan, 1, PageBytes(page), false)
  }

  // The step that computeRead and its finalizer propose for a page.
  predicate PlannedStep(page: Page, step: Step) {
    step.successor == page.successor && |step.text| == page.size && ValidText(step.text) && step.use == PlannedUse(page)
  }

  // Before its deadline a lineage on its plan can always take the next step, which is prepaid
  // and keeps it on the plan: no slot, no byte and no other lineage is touched.
  lemma NextPageIsPrepaid(cfg: Config, it: Item, initial: State, plan: seq<Page>, j: nat, step: Step,
                          parent: nat, child: nat, now: int)
    requires PlanFits(cfg, initial, plan) && OnPlan(it, initial, plan, j) && j < |plan| && PlannedStep(plan[j], step)
    requires Live(it.row.flags) && !Expired(it.row, now) && now < it.row.workExpiresAt
    ensures StepAllowed(cfg, it, step.successor, step.text, step.use, now)
    ensures Prepaid(it.row, step.use) && Slack(it.row, step.use) == 0 && Growable(it.row, step.use)
    ensures var it' := Grown(it, parent, child, step, now);
            && OnPlan(it', initial, plan, j + 1)
            && Slots(it'.row) == Slots(it.row) && it'.row.dynamicBytes == it.row.dynamicBytes
  {
    assert plan[j..][0] == plan[j] && plan[j..][1..] == plan[j + 1..];
    PlanBytesTail(plan, j);
  }

  lemma {:induction false} PlanBytesTail(plan: seq<Page>, j: nat)
    requires j <= |plan|
    ensures PlanBytes(plan[j..]) <= PlanBytes(plan)
  {
    if j > 0 {
      PlanBytesTail(plan[1..], j - 1);
      assert plan[j..] == plan[1..][j - 1..];
    } else {
      assert plan[0..] == plan;
    }
  }

  // The step is possible in the registry as it stands, whatever the other lineages hold; only
  // the child's token must not be in use yet.
  lemma NextPageIsPossible(r: Registry.Registry, p: nat, initial: State, plan: seq<Page>, j: nat, e: nat, step: Step,
                           now: int)
    requires r.Valid() && p < |r.View()|
    requires PlanFits(r.cfg, initial, plan) && OnPlan(r.View()[p], initial, plan, j) && j < |plan|
             && PlannedStep(plan[j], step)
    requires var row := r.View()[p].row; Live(row.flags) && !Expired(row, now) && now < row.workExpiresAt
    requires e < r.entries.cells.Length && r.entries.cells[e].occupied
    requires r.entries.cells[e].row.lineage == r.View()[p].ref && r.entries.cells[e].row.successor == NO_REF
    ensures e in r.tokenOf
    ensures r.CanStep(e, step, now) <==> r.derive(r.tokenOf[e], step.successor.digest) !in r.tokens.contents
  {
    hide Registry.Registry.Valid, Registry.Registry.View, Items, RegistryState.Ok, Accounted, WellRun, OnPlan;
    hide PlanFits, StepAllowed, Expired;
    var q := r.EntryFacts(e);
    r.DistinctNow();
    SamePlaceInView(r.View(), p, q);
    r.SameItem(q, r.entries.cells[e].row.lineage);
    NextPageIsPrepaid(r.cfg, r.View()[p], initial, plan, j, step, e, e, now);
  }

  // Delivering the next page: the whole of a read continuation between its two finish lines.
  method ServePage(r: Registry.Registry, parent: Ref, ghost p: nat, ghost initial: State, ghost plan: seq<Page>,
                   ghost j: nat,
                   step: Step, now: int)
    returns (m: Registry.Materialized, ghost q: nat)
    requires r.Valid() && r.Renewable() && !r.closed && r.entries.IsValid(parent)
    requires p < |r.View()| && r.View()[p].ref == r.entries.cells[parent.index].row.lineage
    requires r.entries.cells[parent.index].row.successor == NO_REF
    requires PlanFits(r.cfg, initial, plan) && OnPlan(r.View()[p], initial, plan, j) && j < |plan|
             && PlannedStep(plan[j], step)
    requires var row := r.View()[p].row; Live(row.flags) && !Expired(row, now) && now < row.workExpiresAt
    requires parent.index in r.tokenOf && r.derive(r.tokenOf[parent.index], step.successor.digest) !in r.tokens.contents
    modifies r.Repr
    ensures m.Child? && r.usedSlots == old(r.usedSlots) && r.totalBytes == old(r.totalBytes)
    ensures |r.View()| == old(|r.View()|) && OnPlan(r.View()[0], initial, plan, j + 1)
    ensures r.View()[1..] == old(r.View())[..p] + old(r.View())[p + 1..]
    ensures Kept(old(r.View()), r.View())
    ensures SameJobs(old(r.entries.cells[..]), r.entries.cells[..])
    ensures r.Valid()
  {
    hide Registry.Registry.Valid, Registry.Registry.View, Items, RegistryState.Ok, OnPlan, PlanFits;
    hide PlannedStep, Grown, Expired, SameJobs, KeptBy;
    hide Registry.Registry.CanStep, LeastRoom, Removed, VictimRefs, Slack, Growable, Rolled;
    NextPageIsPossible(r, p, initial, plan, j, parent.index, step, now);
    r.DistinctNow();
    ghost var items := r.View();
    assert step.use.slots == 1 && Frugal(step.use) by { SlotsOfPlanned(plan[j], step); }
    ghost var k;
    m, q, k := r.Materialize(parent, step, now);
    if m.Child? {
      SamePlaceInView(items, p, q);
      NextPageIsPrepaid(r.cfg, items[p], initial, plan, j, step, parent.index, m.entry.index, now);
    }
  }

  lemma SlotsOfPlanned(page: Page, step: Step)
    requires PlannedStep(page, step)
    ensures step.use.slots == 1 && Frugal(step.use)
  {
  }

  // Meanwhile other lineages come, grow and go: a pinned lineage is in the view after any
  // eviction, unchanged, and so it is still on its plan.
  lemma PinnedSurvives(items: seq<Item>, p: nat, now: int, exclude: nat, k: nat)
    requires p < |items| && DistinctRefs(items) && items[p].row.pins > 0 && k <= |Victims(items, now, exclude)|
    ensures items[p] in Removed(items, VictimRefs(items, now, exclude, k))
    ensures exclude != items[p].ref ==> items[p] in Removed(items, VictimRefs(items, now, exclude, k) + {exclude})
  {
    VictimsAreCandidates(items, now, exclude);
    forall it | it in Victims(items, now, exclude)[..k] ensures it.ref != items[p].ref {
      assert it in Victims(items, now, exclude) && it in items && Candidate(it, now, exclude);
    }
    KeptUnlessGone(items, VictimRefs(items, now, exclude, k), p);
    if exclude != items[p].ref { KeptUnlessGone(items, VictimRefs(items, now, exclude, k) + {exclude}, p); }
  }

  // ---------------------------------------------------------------- the final summary of a dynamic lineage

  // A project or search lineage starts with its one credit, and every step that uses its slot
  // exactly for a child that must terminate, as continuationOutcome does, keeps it.
  lemma DynamicStartsWithCredit(cfg: Config, request: DynamicInitial, id: nat, l: nat, entry: nat, now: int)
    requires DynamicPlanned(cfg, request)
    ensures HoldsCredit(NewItem(cfg, DynamicRequest(request), id, l, entry, now))
  {
  }

  lemma CreditIsKept(cfg: Config, it: Item, step: Step, parent: nat, child: nat, now: int)
    requires CreditedItem(it) && it.chain != [] && Frugal(step.use) && Growable(it.row, step.use)
    requires StepAllowed(cfg, it, step.successor, step.text, step.use, now)
    ensures CreditedItem(Grown(it, parent, child, step, now))
  {
    AllowedSuits(cfg, it, step, now);
    GrownTame(it, parent, child, step, now);
  }

  // What decides an unpaid step of the last entry of a lineage. materializeSuccessor looks for a
  // free entry cell before it evicts anything, so a free cell is one of its conditions.
  lemma UnpaidStep(r: Registry.Registry, p: nat, e: nat, step: Step, now: int)
    requires r.Valid() && p < |r.View()|
    requires e < r.entries.cells.Length && r.entries.cells[e].occupied
             && r.entries.cells[e].row.lineage == r.View()[p].ref
    requires r.entries.cells[e].row.successor == NO_REF && step.use.slots != 1
    ensures e in r.tokenOf && r.View()[p].chain != []
    ensures r.CanStep(e, step, now) <==>
      && StepAllowed(r.cfg, r.View()[p], step.successor, step.text, step.use, now)
      && !step.use.mustTerminalize && r.derive(r.tokenOf[e], step.successor.digest) !in r.tokens.contents
      && Admissible(r.cfg, r.View(), r.baseBytes, 1, step.use.bytes, now, r.View()[p].ref)
      && r.entries.free != []
  {
    hide Registry.Registry.Valid, Registry.Registry.View, Items, RegistryState.Ok, Accounted, WellRun;
    hide StepAllowed, Admissible;
    var q := r.EntryFacts(e);
    r.DistinctNow();
    SamePlaceInView(r.View(), p, q);
    r.SameItem(q, r.entries.cells[e].row.lineage);
  }

  // While the lineage holds its credit a free cell is certain: its reserved slot is one that no
  // entry uses. So admission alone decides, and a step is never refused for want of a cell that
  // an eviction would have freed.
  lemma CreditFindsCell(r: Registry.Registry, p: nat, e: nat, step: Step, now: int)
    requires r.Valid() && p < |r.View()| && HoldsCredit(r.View()[p])
    requires e < r.entries.cells.Length && r.entries.cells[e].occupied
             && r.entries.cells[e].row.lineage == r.View()[p].ref
    requires r.entries.cells[e].row.successor == NO_REF && step.use.slots != 1
    ensures e in r.tokenOf
    ensures r.CanStep(e, step, now) <==>
      && StepAllowed(r.cfg, r.View()[p], step.successor, step.text, step.use, now)
      && !step.use.mustTerminalize && r.derive(r.tokenOf[e], step.successor.digest) !in r.tokens.contents
      && Admissible(r.cfg, r.View(), r.baseBytes, 1, step.use.bytes, now, r.View()[p].ref)
  {
    hide Registry.Registry.Valid, Registry.Registry.View, Registry.Registry.CanStep, Admissible, Expired, ValidText;
    UnpaidStep(r, p, e, step, now);
    if r.View()[p].row.reservedSlots > 0 { r.ReservedCell(p); }
  }
}
