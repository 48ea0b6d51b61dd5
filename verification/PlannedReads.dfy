// Lineages over whole runs of a registry: whatever sections come between, a read lineage stays on
// the plan it was opened with, and every lineage keeps the deadlines that it was opened with, so
// that every page of a plan can be served in its turn and in time.
module PlannedReads {
  import opened Wrappers
  import opened Arena
  import opened RegistryModel
  import opened RegistryState
  import opened RegistrySteps
  import opened Reservations
  import Registry

  // The plan of one read: the state it starts from and the pages after the first.
  datatype Plan = Plan(initial: State, pages: seq<Page>)

  // The lineage took as many steps of its plan as it has entries after the first.
  predicate Planned(it: Item, plan: Plan) {
    it.chain != [] && OnPlan(it, plan.initial, plan.pages, |it.chain| - 1)
  }

  // Plans belong to the identifiers of lineages, which are never used again.
  ghost predicate OnTheirPlans(items: seq<Item>, plans: map<nat, Plan>) {
    forall k :: 0 <= k < |items| && items[k].row.id in plans ==> Planned(items[k], plans[items[k].row.id])
  }

  // What one section may do to the view of a registry; each is the new view that some method of
  // the registry promises.
  datatype Section =
    | Starts(p: nat, k: nat, id: nat)
    | Ends(p: nat, k: nat)
    | Bars(p: nat, k: nat)
    | Buries(p: nat, k: nat)
    | Advances(p: nat, to: Flags, until: int)
    | RollsBack(p: nat)
    | Touches(p: nat)
    | Removes(gone: set<nat>)
    | Closes
    | Opens(request: InitialRequest, id: nat, l: nat, entry: nat, now: int, gone: set<nat>)
    | Steps(p: nat, parent: nat, child: nat, step: Step, now: int, gone: set<nat>)

  ghost predicate Possible(items: seq<Item>, s: Section) {
    match s
    case Starts(p, k, _) => p < |items| && k < |items[p].chain|
    case Ends(p, k) => p < |items| && k < |items[p].chain| && items[p].row.pins > 0
    case Bars(p, k) => p < |items| && k < |items[p].chain|
    case Buries(p, k) => p < |items| && k < |items[p].chain|
    case Advances(p, _, _) => p < |items|
    case RollsBack(p) => p < |items|
    case Touches(p) => p < |items|
    case Removes(_) => true
    case Closes => true
    case Opens(_, _, _, _, _, _) => true
    case Steps(p, _, _, step, _, _) => p < |items| && items[p].chain != [] && Growable(items[p].row, step.use)
  }

  ghost function After(cfg: Config, items: seq<Item>, s: Section): seq<Item>
    requires Possible(items, s)
  {
    match s
    case Starts(p, k, id) => items[p := Started(items[p], k, id)]
    case Ends(p, k) => items[p := Ended(items[p], k)]
    case Bars(p, k) => items[p := Forbidden(items[p], k)]
    case Buries(p, k) => items[p := Buried(items[p], k)]
    case Advances(p, to, until) => items[p := Advanced(items[p], to, until)]
    case RollsBack(p) => items[p := Rolled(items[p])]
    case Touches(p) => Fronted(items, p)
    case Removes(gone) => Removed(items, gone)
    case Closes => ClosedView(items)
    case Opens(request, id, l, entry, now, gone) =>
      [NewItem(cfg, request, id, l, entry, now)] + Removed(items, gone)
    case Steps(p, parent, child, step, now, gone) =>
      [Grown(items[p], parent, child, step, now)] + Removed(items, gone + {items[p].ref})
  }

  // A lineage with a plan is opened with what CommitReadInitial reserves for it, and steps as
  // its plan says.
  ghost predicate Keeps(items: seq<Item>, s: Section, plans: map<nat, Plan>)
    requires Possible(items, s)
  {
    match s
    case Opens(request, id, _, _, _, _) =>
      id in plans ==> exists shared :: Shares(plans[id], shared) && request == PlannedRequest(plans[id], shared)
    case Steps(p, _, _, step, _, _) =>
      items[p].row.id in plans ==>
        && |items[p].chain| <= |plans[items[p].row.id].pages|
        && PlannedStep(plans[items[p].row.id].pages[|items[p].chain| - 1], step)
    case _ => true
  }

  // The state carries the shared plan.
  predicate Shares(plan: Plan, shared: SharedAllocation) { plan.initial.shared == Some(shared.digest) }

  function PlannedRequest(plan: Plan, shared: SharedAllocation): InitialRequest {
    ReadRequest(ReadInitial(plan.initial, shared,
                            PageReservation(|plan.pages| + 2, |plan.pages| + 1, PlanBytes(plan.pages))))
  }

  // ---------------------------------------------------------------- deadlines

  // A time as the clock can tell it.
  function Capped(time: int): int { if time > MAX_INT64 then MAX_INT64 else time }

  // A lineage opened at `openedAt` takes its last step before this time.
  function WorkEnds(cfg: Config, openedAt: int): int { Capped(openedAt + cfg.ttl) }

  // And no computation that runs then may commit after this.
  function CommitEnds(cfg: Config, openedAt: int): int { Capped(openedAt + cfg.ttl + HANDOFF_GRACE) }

  predicate Timed(cfg: Config, row: LineageRow, openedAt: int) {
    row.workExpiresAt == WorkEnds(cfg, openedAt) && row.commitDeadline == CommitEnds(cfg, openedAt)
  }

  // Opening times belong to the identifiers of lineages.
  ghost predicate OnTheirClocks(cfg: Config, items: seq<Item>, births: map<nat, int>) {
    forall k :: 0 <= k < |items| && items[k].row.id in births ==> Timed(cfg, items[k].row, births[items[k].row.id])
  }

  ghost predicate OpensOnTime(s: Section, births: map<nat, int>) {
    s.Opens? && s.id in births ==> s.now == births[s.id]
  }

  lemma NewIsTimed(cfg: Config, request: InitialRequest, id: nat, l: nat, entry: nat, now: int)
    requires cfg.ttl > 0
    ensures Timed(cfg, NewItem(cfg, request, id, l, entry, now).row, now)
  {
  }

  // What the deadlines mean for a lineage: it is in time before its work ends; from then on it
  // takes no step; and it is expired once its commits end, or once its work has ended and nothing
  // protects it any more.
  lemma DeadlinesMean(cfg: Config, it: Item, openedAt: int, now: int)
    requires Timed(cfg, it.row, openedAt) && it.chain != []
    ensures now < WorkEnds(cfg, openedAt) ==> now < it.row.workExpiresAt && !Expired(it.row, now)
    ensures now >= WorkEnds(cfg, openedAt) ==>
      forall step: Step :: !StepAllowed(cfg, it, step.successor, step.text, step.use, now)
    ensures Expired(it.row, now) <==>
      now >= CommitEnds(cfg, openedAt) || (now >= WorkEnds(cfg, openedAt) && now >= it.row.protectedUntil)
  {
  }

  // A step protects its lineage from eviction until the handoff is over, and nothing makes that
  // protection shorter.
  lemma StepProtects(it: Item, parent: nat, child: nat, step: Step, now: int)
    requires it.chain != [] && Growable(it.row, step.use)
    ensures var row := Grown(it, parent, child, step, now).row;
            && row.protectedUntil >= it.row.protectedUntil
            && forall later, exclude ::
                 later < Capped(now + HANDOFF_GRACE) && later < it.row.commitDeadline ==>
                   !Candidate(Grown(it, parent, child, step, now), later, exclude)
  {
  }

  // ---------------------------------------------------------------- one section

  // Two lineages that hold the same for their plan.
  predicate HoldsSame(a: Item, b: Item) {
    && a.row.id == b.row.id && |a.chain| == |b.chain|
    && a.row.reservedSlots == b.row.reservedSlots && a.row.reservedBytes == b.row.reservedBytes
    && a.row.shared == b.row.shared
    && a.row.workExpiresAt == b.row.workExpiresAt && a.row.commitDeadline == b.row.commitDeadline
    && a.row.protectedUntil <= b.row.protectedUntil
    && forall k :: 0 <= k < |a.chain| ==>
         && a.chain[k].state == b.chain[k].state && a.chain[k].stateBytes == b.chain[k].stateBytes
         && a.chain[k].mustTerminalize == b.chain[k].mustTerminalize && a.chain[k].page == b.chain[k].page
  }

  lemma SamePlan(a: Item, b: Item, plan: Plan)
    requires HoldsSame(a, b) && Planned(a, plan)
    ensures Planned(b, plan)
  {
    hide StateAt, PlanBytes;
    assert b.chain != [] && b.chain[|a.chain| - 1].state == a.chain[|a.chain| - 1].state;
  }

  // Every lineage afterwards holds what one did before.
  ghost predicate AllHoldSame(before: seq<Item>, after: seq<Item>) {
    forall k :: 0 <= k < |after| ==> Held(before, after[k])
  }

  ghost predicate Held(before: seq<Item>, it: Item) {
    exists i :: 0 <= i < |before| && HoldsSame(before[i], it)
  }

  lemma SamePlans(before: seq<Item>, after: seq<Item>, plans: map<nat, Plan>)
    requires AllHoldSame(before, after) && OnTheirPlans(before, plans)
    ensures OnTheirPlans(after, plans)
  {
    hide Planned, HoldsSame;
    forall k | 0 <= k < |after| && after[k].row.id in plans ensures Planned(after[k], plans[after[k].row.id]) {
      var i :| 0 <= i < |before| && HoldsSame(before[i], after[k]);
      SameId(before[i], after[k]);
      SamePlan(before[i], after[k], plans[after[k].row.id]);
    }
  }

  lemma SameId(a: Item, b: Item)
    requires HoldsSame(a, b)
    ensures a.row.id == b.row.id
  {
  }

  lemma OneChanged(items: seq<Item>, p: nat, it: Item)
    requires p < |items| && HoldsSame(items[p], it)
    ensures AllHoldSame(items, items[p := it])
  {
    hide HoldsSame;
    forall k | 0 <= k < |items| ensures HoldsSame(items[k], items[k]) { HoldsItself(items[k]); }
  }

  lemma HoldsItself(it: Item)
    ensures HoldsSame(it, it)
  {
  }

  lemma OnlySome(items: seq<Item>, rest: seq<Item>)
    requires forall x :: x in rest ==> x in items
    ensures AllHoldSame(items, rest)
  {
    hide HoldsSame;
    forall k | 0 <= k < |rest| ensures Held(items, rest[k]) {
      assert rest[k] in rest;
      var i :| 0 <= i < |items| && items[i] == rest[k];
      HoldsItself(items[i]);
    }
  }

  lemma {:induction false} ClosedHolds(items: seq<Item>)
    ensures AllHoldSame(items, ClosedView(items))
  {
    if items != [] {
      ClosedHolds(items[1..]);
      RolledHolds(items[0]);
      hide HoldsSame, Rolled;
      var view, rest := ClosedView(items), ClosedView(items[1..]);
      forall k | 0 <= k < |view| ensures Held(items, view[k]) {
        var head := |view| - |rest|;
        if k >= head {
          assert view[k] == rest[k - head];
          var i :| 0 <= i < |items[1..]| && HoldsSame(items[1..][i], rest[k - head]);
          assert items[i + 1] == items[1..][i];
        }
      }
    }
  }

  lemma RolledHolds(it: Item)
    ensures HoldsSame(it, Rolled(it))
  {
  }

  lemma {:induction false} RemovedAreSome(items: seq<Item>, gone: set<nat>)
    ensures forall x :: x in Removed(items, gone) ==> x in items
  {
    if items != [] { RemovedAreSome(items[1..], gone); }
  }

  // A section that opens no lineage and takes no step leaves what every lineage holds.
  lemma OthersHoldSame(cfg: Config, items: seq<Item>, s: Section)
    requires Possible(items, s) && !s.Opens? && !s.Steps?
    ensures AllHoldSame(items, After(cfg, items, s))
  {
    hide AllHoldSame;
    match s {
      case Starts(p, k, id) => OneChanged(items, p, Started(items[p], k, id));
      case Ends(p, k) => OneChanged(items, p, Ended(items[p], k));
      case Bars(p, k) => OneChanged(items, p, Forbidden(items[p], k));
      case Buries(p, k) => OneChanged(items, p, Buried(items[p], k));
      case Advances(p, to, until) => OneChanged(items, p, Advanced(items[p], to, until));
      case RollsBack(p) =>
        RolledHolds(items[p]);
        OneChanged(items, p, Rolled(items[p]));
      case Touches(p) => OnlySome(items, Fronted(items, p));
      case Removes(gone) =>
        RemovedAreSome(items, gone);
        OnlySome(items, Removed(items, gone));
      case Closes => ClosedHolds(items);
    }
  }

  // The planned step of a lineage that holds what its plan needs.
  lemma StepStaysOnPlan(it: Item, plan: Plan, parent: nat, child: nat, step: Step, now: int)
    requires Planned(it, plan) && |it.chain| <= |plan.pages| && PlannedStep(plan.pages[|it.chain| - 1], step)
    requires Growable(it.row, step.use)
    ensures Planned(Grown(it, parent, child, step, now), plan)
  {
    var j := |it.chain| - 1;
    assert plan.pages[j..][0] == plan.pages[j] && plan.pages[j..][1..] == plan.pages[j + 1..];
  }

  lemma InFront(it: Item, rest: seq<Item>, plans: map<nat, Plan>)
    requires OnTheirPlans(rest, plans) && (it.row.id in plans ==> Planned(it, plans[it.row.id]))
    ensures OnTheirPlans([it] + rest, plans)
  {
    hide Planned;
  }

  // Every section keeps all lineages on their plans.
  lemma SectionKeepsPlans(cfg: Config, items: seq<Item>, s: Section, plans: map<nat, Plan>)
    requires Possible(items, s) && Keeps(items, s, plans) && OnTheirPlans(items, plans)
    ensures OnTheirPlans(After(cfg, items, s), plans)
  {
    hide OnTheirPlans, Planned, PlannedStep, Growable, AllHoldSame;
    match s {
      case Opens(request, id, l, entry, now, gone) =>
        RestKeepsPlans(items, gone, plans);
        if id in plans { OpenedOnPlan(cfg, items, s, plans); }
        InFront(NewItem(cfg, request, id, l, entry, now), Removed(items, gone), plans);
      case Steps(p, parent, child, step, now, gone) =>
        RestKeepsPlans(items, gone + {items[p].ref}, plans);
        if items[p].row.id in plans {
          PlanOf(items, p, plans);
          StepStaysOnPlan(items[p], plans[items[p].row.id], parent, child, step, now);
        }
        InFront(Grown(items[p], parent, child, step, now), Removed(items, gone + {items[p].ref}), plans);
      case _ =>
        OthersHoldSame(cfg, items, s);
        SamePlans(items, After(cfg, items, s), plans);
    }
  }

  lemma PlanOf(items: seq<Item>, p: nat, plans: map<nat, Plan>)
    requires p < |items| && items[p].row.id in plans && OnTheirPlans(items, plans)
    ensures Planned(items[p], plans[items[p].row.id])
  {
  }

  lemma RestKeepsPlans(items: seq<Item>, gone: set<nat>, plans: map<nat, Plan>)
    requires OnTheirPlans(items, plans)
    ensures OnTheirPlans(Removed(items, gone), plans)
  {
    hide OnTheirPlans, AllHoldSame;
    RemovedAreSome(items, gone);
    OnlySome(items, Removed(items, gone));
    SamePlans(items, Removed(items, gone), plans);
  }

  lemma OpenedOnPlan(cfg: Config, items: seq<Item>, s: Section, plans: map<nat, Plan>)
    requires s.Opens? && Possible(items, s) && Keeps(items, s, plans) && s.id in plans
    ensures Planned(NewItem(cfg, s.request, s.id, s.l, s.entry, s.now), plans[s.id])
  {
    var plan := plans[s.id];
    var shared :| Shares(plan, shared) && s.request == PlannedRequest(plan, shared);
    var opening := ReadInitial(plan.initial, shared,
                               PageReservation(|plan.pages| + 2, |plan.pages| + 1, PlanBytes(plan.pages)));
    ReadStartsOnPlan(cfg, opening, plan.pages, s.id, s.l, s.entry, s.now);
  }

  lemma SameClocks(cfg: Config, before: seq<Item>, after: seq<Item>, births: map<nat, int>)
    requires AllHoldSame(before, after) && OnTheirClocks(cfg, before, births)
    ensures OnTheirClocks(cfg, after, births)
  {
    hide Timed, HoldsSame;
    forall k | 0 <= k < |after| && after[k].row.id in births
      ensures Timed(cfg, after[k].row, births[after[k].row.id])
    {
      assert Held(before, after[k]);
      var i :| 0 <= i < |before| && HoldsSame(before[i], after[k]);
      SameId(before[i], after[k]);
      SameTimes(cfg, before[i], after[k], births[after[k].row.id]);
    }
  }

  lemma SameTimes(cfg: Config, a: Item, b: Item, birth: int)
    requires HoldsSame(a, b) && Timed(cfg, a.row, birth)
    ensures Timed(cfg, b.row, birth)
  {
  }

  lemma InFrontOnTime(cfg: Config, it: Item, rest: seq<Item>, births: map<nat, int>)
    requires OnTheirClocks(cfg, rest, births) && (it.row.id in births ==> Timed(cfg, it.row, births[it.row.id]))
    ensures OnTheirClocks(cfg, [it] + rest, births)
  {
    hide Timed;
  }

  lemma ClockOf(cfg: Config, items: seq<Item>, p: nat, births: map<nat, int>)
    requires p < |items| && items[p].row.id in births && OnTheirClocks(cfg, items, births)
    ensures Timed(cfg, items[p].row, births[items[p].row.id])
  {
  }

  lemma RestKeepsClocks(cfg: Config, items: seq<Item>, gone: set<nat>, births: map<nat, int>)
    requires OnTheirClocks(cfg, items, births)
    ensures OnTheirClocks(cfg, Removed(items, gone), births)
  {
    hide OnTheirClocks, AllHoldSame;
    RemovedAreSome(items, gone);
    OnlySome(items, Removed(items, gone));
    SameClocks(cfg, items, Removed(items, gone), births);
  }

  lemma GrownKeepsTimes(cfg: Config, it: Item, parent: nat, child: nat, step: Step, now: int, birth: int)
    requires it.chain != [] && Growable(it.row, step.use) && Timed(cfg, it.row, birth)
    ensures Timed(cfg, Grown(it, parent, child, step, now).row, birth)
  {
  }

  // No section moves the deadlines of a lineage.
  lemma SectionKeepsClocks(cfg: Config, items: seq<Item>, s: Section, births: map<nat, int>)
    requires cfg.ttl > 0 && Possible(items, s) && OpensOnTime(s, births) && OnTheirClocks(cfg, items, births)
    ensures OnTheirClocks(cfg, After(cfg, items, s), births)
  {
    hide OnTheirClocks, Timed, Growable, AllHoldSame;
    match s {
      case Opens(request, id, l, entry, now, gone) =>
        RestKeepsClocks(cfg, items, gone, births);
        NewIsTimed(cfg, request, id, l, entry, now);
        InFrontOnTime(cfg, NewItem(cfg, request, id, l, entry, now), Removed(items, gone), births);
      case Steps(p, parent, child, step, now, gone) =>
        RestKeepsClocks(cfg, items, gone + {items[p].ref}, births);
        if items[p].row.id in births {
          ClockOf(cfg, items, p, births);
          GrownKeepsTimes(cfg, items[p], parent, child, step, now, births[items[p].row.id]);
        }
        InFrontOnTime(cfg, Grown(items[p], parent, child, step, now), Removed(items, gone + {items[p].ref}), births);
      case _ =>
        OthersHoldSame(cfg, items, s);
        SameClocks(cfg, items, After(cfg, items, s), births);
    }
  }

  // ---------------------------------------------------------------- the registry's sections

  // A step that materializeSuccessor takes is one of these sections, and so is giving up a lineage.
  lemma StepIsSection(cfg: Config, before: seq<Item>, after: seq<Item>, base: nat, l: nat, parent: nat, child: nat,
                      step: Step, now: int, p: nat, k: nat) returns (s: Section)
    requires DistinctRefs(before) && SteppedTo(cfg, before, after, base, l, parent, child, step, now, p, k)
    ensures s.Steps? && s.p == p && s.step == step && Possible(before, s) && After(cfg, before, s) == after
  {
    hide LeastRoom, Growable, Grown;
    var gone := if step.use.slots == 1 then {} else VictimRefs(before, now, l, k);
    s := Steps(p, parent, child, step, now, gone);
    if step.use.slots == 1 {
      RemovedOne(before, p);
      assert {} + {before[p].ref} == {before[p].ref};
    }
  }

  lemma DropIsSection(cfg: Config, items: seq<Item>, p: nat) returns (s: Section)
    requires DistinctRefs(items) && p < |items|
    ensures !s.Opens? && !s.Steps? && Possible(items, s) && After(cfg, items, s) == Dropped(items, p)
  {
    if items[p].row.pins != 0 {
      s := RollsBack(p);
    } else {
      s := Removes({items[p].ref});
      RemovedOne(items, p);
    }
  }

  // ---------------------------------------------------------------- whole runs

  // The views of a registry, each after one more section.
  ghost predicate History(cfg: Config, views: seq<seq<Item>>, sections: seq<Section>) {
    && |views| == |sections| + 1
    && forall n :: 0 <= n < |sections| ==>
         Possible(views[n], sections[n]) && views[n + 1] == After(cfg, views[n], sections[n])
  }

  ghost predicate AllKeep(views: seq<seq<Item>>, sections: seq<Section>, plans: map<nat, Plan>) {
    |views| == |sections| + 1 &&
    forall n :: 0 <= n < |sections| ==> Possible(views[n], sections[n]) && Keeps(views[n], sections[n], plans)
  }

  // Over every run the read lineages that are there are on their plans.
  lemma {:induction false} RunKeepsPlans(cfg: Config, views: seq<seq<Item>>, sections: seq<Section>,
                                         plans: map<nat, Plan>, n: nat)
    requires History(cfg, views, sections) && AllKeep(views, sections, plans)
    requires OnTheirPlans(views[0], plans) && n < |views|
    ensures OnTheirPlans(views[n], plans)
  {
    hide OnTheirPlans, Possible, Keeps, After;
    if n > 0 {
      RunKeepsPlans(cfg, views, sections, plans, n - 1);
      SectionKeepsPlans(cfg, views[n - 1], sections[n - 1], plans);
    }
  }

  // Over every run each lineage keeps the deadlines of the time it was opened at.
  lemma {:induction false} RunKeepsClocks(cfg: Config, views: seq<seq<Item>>, sections: seq<Section>,
                                          births: map<nat, int>, n: nat)
    requires cfg.ttl > 0 && History(cfg, views, sections) && OnTheirClocks(cfg, views[0], births) && n < |views|
    requires forall k :: 0 <= k < |sections| ==> OpensOnTime(sections[k], births)
    ensures OnTheirClocks(cfg, views[n], births)
  {
    hide OnTheirClocks, Possible, After, OpensOnTime;
    if n > 0 {
      RunKeepsClocks(cfg, views, sections, births, n - 1);
      SectionKeepsClocks(cfg, views[n - 1], sections[n - 1], births);
    }
  }

  // The life of a lineage, over every run from the empty registry: it is in time until its time
  // to live is over, takes no step from then on, and is expired exactly when its handoff is over
  // as well, or when it is past its time with nothing to protect it.
  lemma LifeOfLineage(cfg: Config, views: seq<seq<Item>>, sections: seq<Section>, births: map<nat, int>, p: nat,
                      now: int)
    requires Configured(cfg) && History(cfg, views, sections) && views[0] == []
    requires forall k :: 0 <= k < |sections| ==> OpensOnTime(sections[k], births)
    requires p < |views[|sections|]| && views[|sections|][p].row.id in births && views[|sections|][p].chain != []
    ensures
      var it := views[|sections|][p];
      var birth := births[it.row.id];
      && (now < Capped(birth + cfg.ttl) ==> now < it.row.workExpiresAt && !Expired(it.row, now))
      && (now >= Capped(birth + cfg.ttl) ==>
            forall step: Step :: !StepAllowed(cfg, it, step.successor, step.text, step.use, now))
      && (Expired(it.row, now) <==>
            now >= Capped(birth + cfg.ttl + HANDOFF_GRACE)
            || (now >= Capped(birth + cfg.ttl) && now >= it.row.protectedUntil))
  {
    hide OnTheirClocks, Possible, After, OpensOnTime, Timed, StepAllowed, Expired;
    NoneOffClock(cfg, births);
    RunKeepsClocks(cfg, views, sections, births, |sections|);
    var it := views[|sections|][p];
    ClockOf(cfg, views[|sections|], p, births);
    DeadlinesMean(cfg, it, births[it.row.id], now);
  }

  lemma NoneOffClock(cfg: Config, births: map<nat, int>)
    ensures OnTheirClocks(cfg, [], births)
  {
  }

  // So after every run from the empty registry the next page of a read lineage that is still
  // there and in phase can be served as long as its time to live is not over: its step is
  // prepaid, whatever came between, and only the child's token must not be in use yet.
  lemma NextPageAfterAnyRun(r: Registry.Registry, views: seq<seq<Item>>, sections: seq<Section>,
                            plans: map<nat, Plan>, births: map<nat, int>, p: nat, e: nat, step: Step, now: int)
    requires History(r.cfg, views, sections) && AllKeep(views, sections, plans) && views[0] == []
    requires Configured(r.cfg) && forall k :: 0 <= k < |sections| ==> OpensOnTime(sections[k], births)
    requires r.Valid() && r.View() == views[|sections|] && p < |r.View()|
    requires r.View()[p].row.id in plans && r.View()[p].row.id in births
    requires var it, plan := r.View()[p], plans[r.View()[p].row.id];
             && PlanFits(r.cfg, plan.initial, plan.pages)
             && Live(it.row.flags) && now < Capped(births[it.row.id] + r.cfg.ttl)
             && 0 < |it.chain| <= |plan.pages| && PlannedStep(plan.pages[|it.chain| - 1], step)
    requires e < r.entries.cells.Length && r.entries.cells[e].occupied
    requires r.entries.cells[e].row.lineage == r.View()[p].ref && r.entries.cells[e].row.successor == NO_REF
    ensures Prepaid(r.View()[p].row, step.use) && e in r.tokenOf
    ensures r.CanStep(e, step, now) <==> r.derive(r.tokenOf[e], step.successor.digest) !in r.tokens.contents
  {
    hide Registry.Registry.Valid, Registry.Registry.View, Registry.Registry.CanStep, AllKeep, OnTheirPlans;
    hide Possible, After, PlanFits, Expired, OnPlan, PlannedStep, OpensOnTime, StepAllowed;
    NoneOffPlan(plans);
    RunKeepsPlans(r.cfg, views, sections, plans, |sections|);
    LifeOfLineage(r.cfg, views, sections, births, p, now);
    var it, plan := r.View()[p], plans[r.View()[p].row.id];
    PlanOf(r.View(), p, plans);
    NextPageIsPrepaid(r.cfg, it, plan.initial, plan.pages, |it.chain| - 1, step, e, e, now);
    NextPageIsPossible(r, p, plan.initial, plan.pages, |it.chain| - 1, e, step, now);
  }

  lemma NoneOffPlan(plans: map<nat, Plan>)
    ensures OnTheirPlans([], plans)
  {
  }
}
