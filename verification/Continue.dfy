// The continuation protocol of the cursor registry (internal/cursor/continue.go). Calls with
// the same cursor share one computation; each method is one section held under the registry
// mutex, or one hand-over between two of them, and sections may follow each other in any order
// that the stages of the computations allow.

module Continue {
  import opened Wrappers
  import opened Arena
  import opened RegistryModel
  import opened RegistryState
  import opened RegistrySteps
  import opened Computations
  import opened Reservations
  import Registry

  class Continuations {
    const registry: Registry.Registry
    var jobs: seq<Job>
    var waiters: seq<Waiter>
    // Every outcome so far used the slot of its lineage as computeDynamic and computeRead do.
    ghost var frugal: bool

    ghost predicate Valid()
      reads this, registry.Repr
    {
      && this !in registry.Repr && registry.Valid() && Settled(registry.View())
      && Matches(registry.entries.cells[..], jobs) && Memoized(registry.entries.cells[..], jobs)
      && Tables(jobs, waiters) && Provident()
    }

    // Then project and search lineages hold their credit, and no step is about to waste it.
    ghost predicate Provident()
      reads this, registry.Repr
    {
      frugal ==> Credited(registry.View()) && Thrifty(jobs)
    }

    constructor (registry: Registry.Registry)
      requires registry.Valid() && registry.View() == []
      ensures Valid() && jobs == [] && waiters == [] && frugal && this.registry == registry
    {
      hide Registry.Registry.Valid, Registry.Registry.View;
      this.registry := registry;
      jobs, waiters, frugal := [], [], true;
      new;
      NothingRuns();
    }

    lemma NothingRuns()
      requires registry.Valid() && registry.View() == []
      ensures forall e :: 0 <= e < registry.entries.cells.Length ==> !Runs(registry.entries.cells[e])
    {
      hide Registry.Registry.Valid, Registry.Registry.View;
      forall e | 0 <= e < registry.entries.cells.Length ensures !registry.entries.cells[e].occupied {
        registry.EmptyView(e);
      }
    }

    // The row of the entry that a computation runs for.
    ghost function RowOf(j: nat): EntryRow
      requires j < |jobs|
      reads this, registry.entries.cells
    {
      RowAt(registry.entries.cells[..], jobs[j].entry.index)
    }

    // The columns of its lineage.
    ghost function LineOf(j: nat): LineageRow
      requires j < |jobs|
      reads this, registry.entries.cells, registry.lineages.cells
    {
      LineAt(registry.lineages.cells[..], RowOf(j).lineage)
    }

    // The computation may not commit any more.
    ghost predicate Barred(j: nat)
      requires j < |jobs|
      reads this, registry.entries.cells
    {
      RowOf(j).work.Computing? && RowOf(j).work.noCommit
    }

    // The entry of an unfinished computation, its lineage and its place in the view.
    lemma JobFacts(j: nat) returns (p: nat)
      requires Valid() && j < |jobs| && !Finished(jobs[j])
      ensures var e := jobs[j].entry.index;
              && registry.entries.IsValid(jobs[j].entry) && Runs(registry.entries.cells[e])
              && registry.entries.cells[e].row.work.id == j
              && var row := registry.entries.cells[e].row;
                 && row.lineage < registry.lineages.cells.Length && registry.lineages.cells[row.lineage].occupied
                 && p < |registry.View()| && registry.View()[p].ref == row.lineage
                 && registry.View()[p].row == registry.lineages.cells[row.lineage].row
                 && row.page < |registry.View()[p].chain| && registry.View()[p].chain[row.page] == row
                 && registry.View()[p].row.pins > 0 && e in registry.tokenOf
                 && (Barred(j) ==> registry.View()[p].row.flags == RollbackPending)
    {
      hide Registry.Registry.Valid, Registry.Registry.View, Tables, Memoized, WellRun;
      assert RunsJob(registry.entries.cells[..], jobs[j].entry, j);
      p := EntryOf(jobs[j].entry.index);
    }

    // A running entry pins its lineage.
    lemma EntryOf(e: nat) returns (p: nat)
      requires registry.Valid() && Settled(registry.View())
      requires e < registry.entries.cells.Length && Runs(registry.entries.cells[e])
      ensures var row := registry.entries.cells[e].row;
              && row.lineage < registry.lineages.cells.Length && registry.lineages.cells[row.lineage].occupied
              && p < |registry.View()| && registry.View()[p].ref == row.lineage
              && registry.View()[p].row == registry.lineages.cells[row.lineage].row
              && row.page < |registry.View()[p].chain| && registry.View()[p].chain[row.page] == row
              && registry.View()[p].row.pins > 0 && e in registry.tokenOf
              && (row.work.noCommit ==> registry.View()[p].row.flags == RollbackPending)
    {
      hide Registry.Registry.Valid, Registry.Registry.View, WellRun;
      p := registry.EntryFacts(e);
      WorkCounted(registry.View()[p].chain, registry.entries.cells[e].row.page);
      assert SettledItem(registry.View()[p]);
    }

    // Whatever other sections do to the registry, as long as they keep the running
    // computations and leave it settled, the protocol is intact, whatever they publish.
    lemma KeptByOthers(cells: seq<Cell<EntryRow>>, items: seq<Item>, announced: set<nat>)
      requires this !in registry.Repr && registry.Valid() && Tables(jobs, waiters)
      requires Settled(items) && (frugal ==> Credited(items) && Thrifty(jobs))
               && KeptBy(items, registry.View(), frugal, announced)
      requires Matches(cells, jobs) && Memoized(cells, jobs) && SameJobs(cells, registry.entries.cells[..])
      ensures Valid()
    {
      hide Registry.Registry.Valid, Registry.Registry.View, Settled, Credited, PublishedIds, SameJobs, Tables;
      OtherSectionsKeep(cells, registry.entries.cells[..], jobs);
    }

    lemma ViewIsStored(p: nat, k: nat)
      requires registry.Valid() && p < |registry.View()| && k < |registry.View()[p].chain|
      ensures StoredIn(registry.entries.cells[..], registry.View()[p].chain[k])
    {
      hide Registry.Registry.Valid, Registry.Registry.View;
      var e := registry.ViewStored(p, k);
      assert registry.entries.cells[..][e].row == registry.View()[p].chain[k];
    }

    // At rest, when every computation is finished, every lineage left is in phase and unpinned.
    lemma NoLineageLeaks()
      requires Valid() && forall j :: 0 <= j < |jobs| ==> Finished(jobs[j])
      ensures forall p :: 0 <= p < |registry.View()| ==>
        InPhase(registry.View()[p].row) && registry.View()[p].row.pins == 0
    {
      hide Registry.Registry.Valid, Registry.Registry.View, Accounted, SameJobs, Tables, Memoized;
      forall p | 0 <= p < |registry.View()| ensures Accounted(registry.View()[p]) {
        registry.ViewAccounted(p);
      }
      forall p, k | 0 <= p < |registry.View()| && 0 <= k < |registry.View()[p].chain|
        ensures StoredIn(registry.entries.cells[..], registry.View()[p].chain[k])
      {
        ViewIsStored(p, k);
      }
      AllInPhase(registry.entries.cells[..], jobs, registry.View());
    }

    // ------------------------------------------------------------ a call arrives

    // The call got this reply, unless it was cancelled: then it was closed without one.
    predicate Got(w: nat, reply: Reply, cancelled: bool)
      reads this
    {
      w < |waiters| && waiters[w].answers == 1 &&
      waiters[w].place == if cancelled then ClosedSilently else Delivered(reply)
    }

    // deliverImmediate, for a call that joins nothing.
    method AnswerNow(reply: Reply, cancelled: bool)
      requires Valid()
      modifies this`waiters
      ensures Valid() && waiters == old(waiters) + [Immediate(reply, cancelled)]
      ensures Got(|old(waiters)|, reply, cancelled)
    {
      hide Registry.Registry.Valid, Registry.Registry.View, Tables, Matches, Memoized, Settled, Credited, PublishedIds;
      ImmediateOk(jobs, waiters, reply, cancelled);
      waiters := waiters + [Immediate(reply, cancelled)];
    }

    // A call attaches to a running computation, or is told that it is too late.
    ghost predicate JoinedBy(jobs0: seq<Job>, waiters0: seq<Waiter>, work: Work, cancelledLater: bool, accepted: bool)
      reads this
    {
      if !work.Computing? || work.noCommit then jobs == jobs0
        && waiters == waiters0 + [Immediate(Error(CursorExpired), cancelledLater)]
      else if !accepted then jobs == jobs0 && waiters == waiters0 + [Immediate(Error(CursorExpired), true)]
      else work.id < |jobs0| && jobs == Joined(jobs0, work.id, |waiters0|)
           && waiters == waiters0 + [Waiter(Joiner(work.id), Attached, 0, 0, false)]
    }

    // The entry runs a computation already: attach to it, unless it may not commit. A lease
    // that refuses the transfer detaches the call again and closes it.
    method Join(entry: nat, cancelledLater: bool, accepted: bool)
      requires Valid() && entry < registry.entries.cells.Length && Runs(registry.entries.cells[entry])
      modifies this`jobs, this`waiters
      ensures JoinedBy(old(jobs), old(waiters), RowAt(registry.entries.cells[..], entry).work, cancelledLater, accepted)
      ensures Valid()
    {
      hide Registry.Registry.Valid, Registry.Registry.View, Tables, Memoized, Settled, Credited, PublishedIds;
      var work := registry.entries.cells[entry].row.work;
      if work.noCommit {
        AnswerNow(Error(CursorExpired), cancelledLater);
        return;
      }
      if !accepted {
        AnswerNow(Error(CursorExpired), true);
        return;
      }
      assert OwnedBy(jobs, entry, work.id);
      JoinedOk(jobs, waiters, work.id);
      MovedMatches(registry.entries.cells[..], jobs, Joined(jobs, work.id, |waiters|), work.id);
      jobs, waiters := Joined(jobs, work.id, |waiters|), waiters + [Waiter(Joiner(work.id), Attached, 0, 0, false)];
    }

    // continuationDeadline: which error an overrun is reported as.
    function DeadlineCode(callerDeadline: Option<int>, commitDeadline: int): Code {
      if callerDeadline.Some? && callerDeadline.value < commitDeadline then BudgetExceeded else CursorExpired
    }

    // A new computation runs on the entry, and the call waits for it.
    ghost predicate StartedBy(jobs0: seq<Job>, waiters0: seq<Waiter>, cells0: seq<Cell<EntryRow>>, entry: Ref,
                              code: Code)
      reads this, registry.entries.cells
    {
      && jobs == jobs0 + [NewJob(entry, code, |waiters0|)]
      && waiters == waiters0 + [Waiter(Starter(|jobs0|), Attached, 0, 0, false)]
      && entry.index < |cells0| && registry.entries.cells[..] == Marked(cells0, entry.index, |jobs0|)
    }

    ghost function GenerationOf(entry: nat): nat
      reads registry.entries.cells
    {
      if entry < registry.entries.cells.Length then registry.entries.cells[entry].generation else 0
    }

    ghost function CommitDeadline(entry: nat): int
      reads registry.entries.cells, registry.lineages.cells
    {
      LineAt(registry.lineages.cells[..], RowAt(registry.entries.cells[..], entry).lineage).commitDeadline
    }

    // The computation `id` pins the lineage of the entry, if the lease accepts it.
    static ghost predicate StartedIn(before: seq<Item>, after: seq<Item>, row: EntryRow, id: nat, accepted: bool,
                                     p: nat) {
      && p < |before| && before[p].ref == row.lineage && row.page < |before[p].chain|
      && after == if accepted then before[p := Started(before[p], row.page, id)] else before
    }

    // The start of computation `id` is undone.
    method Unstart(e: nat, ghost cells: seq<Cell<EntryRow>>, ghost items: seq<Item>, ghost p: nat, id: nat)
      requires registry.Valid() && e < |cells| && cells[e].occupied && cells[e].row.work.Idle?
      requires p < |items| && items[p].ref == cells[e].row.lineage && cells[e].row.page < |items[p].chain|
      requires items[p].chain[cells[e].row.page] == cells[e].row
      requires registry.entries.cells[..] == Marked(cells, e, id)
      requires registry.View() == items[p := Started(items[p], cells[e].row.page, id)]
      modifies registry.Repr
      ensures registry.Valid() && registry.closed == old(registry.closed)
      ensures registry.entries.cells[..] == cells && registry.View() == items
    {
      hide Registry.Registry.Valid, Registry.Registry.View, SameJobs;
      registry.DistinctNow();
      ghost var started := registry.View();
      ghost var q := registry.EndWork(e);
      SamePlaceInView(started, p, q);
      StartUndone(items[p], cells[e].row.page, id);
      assert registry.View() == items;
      assert registry.entries.cells[..] == cells;
    }

    // The entry is idle and has no memo: start a computation, which pins the lineage. A lease
    // that refuses the transfer undoes the start.
    method Start(entry: Ref, callerDeadline: Option<int>, accepted: bool) returns (ghost p: nat)
      requires Valid() && registry.entries.IsValid(entry) && registry.entries.cells[entry.index].row.work.Idle?
      requires registry.entries.cells[entry.index].row.lineage < registry.lineages.cells.Length
      modifies this`jobs, this`waiters, registry.Repr
      ensures registry.closed == old(registry.closed)
      ensures if accepted
              then StartedBy(old(jobs), old(waiters), old(registry.entries.cells[..]), entry,
                             DeadlineCode(callerDeadline, old(CommitDeadline(entry.index))))
              else jobs == old(jobs) && waiters == old(waiters) + [Immediate(Error(CursorExpired), true)]
                   && registry.entries.cells[..] == old(registry.entries.cells[..])
      ensures StartedIn(old(registry.View()), registry.View(), old(RowAt(registry.entries.cells[..], entry.index)),
                        |old(jobs)|, accepted, p)
      ensures Kept(old(registry.View()), registry.View())
      ensures Valid()
    {
      hide Registry.Registry.Valid, Registry.Registry.View, Tables, Memoized, Matches, Settled, Credited;
      hide PublishedIds, SameJobs;
      ghost var cells, items := registry.entries.cells[..], registry.View();
      registry.DistinctNow();
      var l := registry.entries.cells[entry.index].row.lineage;
      var code := DeadlineCode(callerDeadline, registry.lineages.cells[l].row.commitDeadline);
      var id := |jobs|;
      ghost var q := registry.EntryFacts(entry.index);
      p := registry.StartWork(entry.index, id);
      SamePlaceInView(items, p, q);
      if accepted {
        StartMatches(cells, registry.entries.cells[..], jobs, entry, code, |waiters|);
        StartedJobOk(jobs, waiters, entry, code);
        jobs, waiters := jobs + [NewJob(entry, code, |waiters|)],
            waiters + [Waiter(Starter(id), Attached, 0, 0, false)];
      } else {
        Unstart(entry.index, cells, items, p, id);
        SameJobsRefl(cells);
        KeptRefl(items, true, {});
        KeptByOthers(cells, items, {});
        AnswerNow(Error(CursorExpired), true);
      }
    }

    // What a call that meets an entry leads to: an answer at once, a place in the queue of the
    // running computation, or a new computation.
    ghost predicate Attended(jobs0: seq<Job>, waiters0: seq<Waiter>, cells0: seq<Cell<EntryRow>>, entry: Ref,
                             code: Code,
                             cancelledLater: bool, compute: bool, cloned: bool, accepted: bool)
      reads this, registry, registry.entries.cells
    {
      var row := RowAt(cells0, entry.index);
      if row.memo.Some? then jobs == jobs0 && waiters == waiters0 + [Immediate(Text(row.memo.value), cancelledLater)]
      else if row.work.Computing? then JoinedBy(jobs0, waiters0, row.work, cancelledLater, accepted)
      else if !compute then jobs == jobs0 && waiters == waiters0 + [Immediate(Error(InvalidInput), cancelledLater)]
      else if !cloned then jobs == jobs0 && waiters == waiters0 + [Immediate(Error(IoError), cancelledLater)]
      else if !accepted then jobs == jobs0 && waiters == waiters0 + [Immediate(Error(CursorExpired), true)]
      else StartedBy(jobs0, waiters0, cells0, entry, code)
    }

    // Whether the call started a computation, or had to give the lineage up.
    static ghost predicate Starts(row: EntryRow, compute: bool, cloned: bool) {
      row.memo.None? && row.work.Idle? && compute && cloned
    }

    static ghost predicate GivesUp(row: EntryRow, compute: bool, cloned: bool) {
      row.memo.None? && row.work.Idle? && compute && !cloned
    }

    // What the call does to the view: it starts a computation, gives the lineage up, or leaves
    // all as it is.
    static ghost predicate AttendedIn(before: seq<Item>, after: seq<Item>, row: EntryRow, id: nat,
                                      compute: bool, cloned: bool, accepted: bool, p: nat) {
      if Starts(row, compute, cloned) then StartedIn(before, after, row, id, accepted, p)
      else if GivesUp(row, compute, cloned)
      then p < |before| && before[p].ref == row.lineage && after == Dropped(before, p)
      else after == before
    }

    // The part of Continue after the lookup.
    method Attend(entry: Ref, cancelledLater: bool, compute: bool, cloned: bool, accepted: bool,
                  callerDeadline: Option<int>)
      returns (ghost p: nat)
      requires Valid() && registry.entries.IsValid(entry)
      modifies this`jobs, this`waiters, registry.Repr
      ensures Attended(old(jobs), old(waiters), old(registry.entries.cells[..]), entry,
                       DeadlineCode(callerDeadline, old(CommitDeadline(entry.index))),
                       cancelledLater, compute, cloned, accepted)
      ensures AttendedIn(old(registry.View()), registry.View(), old(RowAt(registry.entries.cells[..], entry.index)),
                         |old(jobs)|, compute, cloned, accepted, p)
      ensures var row := old(RowAt(registry.entries.cells[..], entry.index));
              row.memo.Some? ==> Got(|old(waiters)|, Text(row.memo.value), cancelledLater)
      ensures Kept(old(registry.View()), registry.View())
      ensures registry.closed == old(registry.closed) && Valid()
    {
      hide Registry.Registry.Valid, Registry.Registry.View, Tables, Memoized, Matches, Settled, Credited;
      hide PublishedIds, SameJobs;
      hide StartedBy, StartedIn, DeadlineCode, CommitDeadline, Dropped;
      KeptRefl(registry.View(), true, {});
      ghost var cells, items := registry.entries.cells[..], registry.View();
      p := 0;
      var row := registry.entries.cells[entry.index].row;
      if row.memo.Some? {
        AnswerNow(Text(row.memo.value), cancelledLater);
      } else if row.work.Computing? {
        Join(entry.index, cancelledLater, accepted);
      } else if !compute {
        AnswerNow(Error(InvalidInput), cancelledLater);
      } else {
        p := registry.EntryFacts(entry.index);
        if !cloned {
          var gone;
          gone, p := registry.RemoveLineage(Ref(row.lineage, registry.lineages.cells[row.lineage].generation));
          KeptByOthers(cells, items, {});
          AnswerNow(Error(IoError), cancelledLater);
        } else {
          p := Start(entry, callerDeadline, accepted);
        }
      }
    }

    // Continue. `cancelled` and `cancelledLater` are the client's cancellation on arrival and
    // at the moment of an immediate answer; `compute` tells whether a computation was passed,
    // `cloned` whether the parent's state could be cloned faithfully, `accepted` whether the
    // call's lease accepts the transfer.
    method Continue(token: Token, tool: Tool, cwdId: nat, now: int, cancelled: bool, cancelledLater: bool,
                    compute: bool, cloned: bool, accepted: bool, callerDeadline: Option<int>)
      returns (ghost p: nat, ghost q: nat)
      requires Valid()
      modifies this`jobs, this`waiters, registry.Repr
      ensures cancelled ==>
        unchanged(registry.Repr) && jobs == old(jobs)
          && waiters == old(waiters) + [Immediate(Error(CursorExpired), true)]
      ensures !cancelled && !old(registry.Hits(token, tool, cwdId, now)) ==>
        && jobs == old(jobs)
        && waiters == old(waiters) + [Immediate(Error(old(registry.MissCode(token, tool, now))), cancelledLater)]
        && if old(registry.MeetsOverdue(token, now))
           then ExpiredAway(old(registry.View()), registry.View(), p,
                            old(registry.LineageOf(registry.tokens.contents[token])), now)
           else unchanged(registry.Repr)
      ensures !cancelled && old(registry.Hits(token, tool, cwdId, now)) ==>
        && token in old(registry.tokens.contents)
        && var e := old(registry.tokens.contents[token]);
           var entry := Ref(e, old(GenerationOf(e)));
           && Attended(old(jobs), old(waiters), old(registry.entries.cells[..]), entry,
                       DeadlineCode(callerDeadline, old(CommitDeadline(e))), cancelledLater, compute, cloned, accepted)
           && p < |old(registry.View())|
             && old(registry.View())[p].ref == old(RowAt(registry.entries.cells[..], e)).lineage
           && AttendedIn(Fronted(old(registry.View()), p), registry.View(), old(RowAt(registry.entries.cells[..], e)),
                         |old(jobs)|, compute, cloned, accepted, q)
      ensures cancelled ==> Got(|old(waiters)|, Error(CursorExpired), true)
      ensures !cancelled && !old(registry.Hits(token, tool, cwdId, now)) ==>
        Got(|old(waiters)|, Error(old(registry.MissCode(token, tool, now))), cancelledLater)
      ensures !cancelled && old(registry.Hits(token, tool, cwdId, now)) ==>
        var row := old(RowAt(registry.entries.cells[..], registry.tokens.contents[token]));
        row.memo.Some? ==> Got(|old(waiters)|, Text(row.memo.value), cancelledLater)
      ensures Kept(old(registry.View()), registry.View())
      ensures registry.closed == old(registry.closed) && Valid()
    {
      hide Registry.Registry.Valid, Registry.Registry.View, Tables, Memoized, Matches, Settled, Credited;
      hide PublishedIds, SameJobs;
      hide Attended, AttendedIn, DeadlineCode, Fronted, ExpiredAway, JoinedBy;
      KeptRefl(registry.View(), true, {});
      p, q := 0, 0;
      if cancelled {
        AnswerNow(Error(CursorExpired), true);
        return;
      }
      ghost var cells, items := registry.entries.cells[..], registry.View();
      var found;
      found, p := registry.LookupScoped(token, tool, cwdId, now);
      KeptByOthers(cells, items, {});
      ghost var looked := registry.View();
      if found.Miss? {
        AnswerNow(Error(found.code), cancelledLater);
        return;
      }
      q := Attend(found.entry, cancelledLater, compute, cloned, accepted, callerDeadline);
      KeptTrans(items, looked, registry.View(), true, true);
    }

    // ------------------------------------------------------------ a call leaves

    // The lineage of the entry, at position p of the view, is to be rolled back.
    static ghost predicate Doomed(before: seq<Item>, after: seq<Item>, row: EntryRow, p: nat) {
      && p < |before| && before[p].ref == row.lineage && row.page < |before[p].chain|
      && after == before[p := Buried(Forbidden(before[p], row.page), row.page)]
    }

    // A computation may not commit any more: its entry is tombstoned and its lineage waits for
    // the last pin.
    method Doom(e: nat) returns (ghost p: nat)
      requires registry.Valid() && Settled(registry.View())
      requires e < registry.entries.cells.Length && Runs(registry.entries.cells[e])
      modifies registry.Repr
      ensures registry.Valid() && Settled(registry.View()) && registry.closed == old(registry.closed)
      ensures Kept(old(registry.View()), registry.View())
      ensures SameJobs(old(registry.entries.cells[..]), registry.entries.cells[..])
      ensures Runs(registry.entries.cells[e]) && registry.entries.cells[e].row.work.noCommit
      ensures Doomed(old(registry.View()), registry.View(), old(registry.entries.cells[e].row), p)
    {
      hide Registry.Registry.Valid, Registry.Registry.View, Settled, Credited, PublishedIds, SameJobs, Buried;
      hide Forbidden;
      ghost var cells, items, k := registry.entries.cells[..], registry.View(), registry.entries.cells[e].row.page;
      registry.DistinctNow();
      p := EntryOf(e);
      ghost var q := registry.Forbid(e);
      SamePlaceInView(items, p, q);
      StoppedKeepsJobs(cells, registry.entries.cells[..], [e]);
      registry.DistinctNow();
      ghost var forbidden, stopped := registry.View(), registry.entries.cells[..];
      ForbiddenRef(items[p], k);
      q := registry.Bury(e);
      SamePlaceInView(forbidden, p, q);
      SameJobsTrans(cells, stopped, registry.entries.cells[..]);
      KeptBuried(items, p, k);
      assert registry.View() == items[p := Buried(Forbidden(items[p], k), k)];
    }

    // cancelWaiter: the call is closed without a response and, unless it started the
    // computation, gives its lease back. The last call to leave dooms the computation. The
    // result tells whether others still wait.
    method CancelWaiter(w: nat) returns (retain: bool)
      requires Valid() && w < |waiters| && !waiters[w].role.Alone?
      modifies this`jobs, this`waiters, registry.Repr
      ensures old(waiters[w].role.job) < |old(jobs)|
      ensures old(Finished(jobs[waiters[w].role.job])) ==> !retain && unchanged(this) && unchanged(registry.Repr)
      ensures old(!Finished(jobs[waiters[w].role.job]) && !waiters[w].place.Attached?) ==>
        && unchanged(this) && unchanged(registry.Repr)
        && var j := waiters[w].role.job;
           (retain <==> !Barred(j) && jobs[j].queue != [])
      ensures old(waiters[w].place.Attached?) ==>
        && jobs == Leave(old(jobs), old(waiters[w].role.job), w)
          && waiters == old(waiters)[w := Closed(old(waiters[w]))]
        && (retain <==> jobs[old(waiters[w].role.job)].queue != [])
        && (retain ==> unchanged(registry.Repr))
        && (!retain ==> Barred(old(waiters[w].role.job)))
      ensures Kept(old(registry.View()), registry.View())
      ensures registry.closed == old(registry.closed) && Valid()
    {
      hide Registry.Registry.Valid, Registry.Registry.View, Memoized, Matches, Settled, Credited;
      hide PublishedIds, SameJobs, Leave, Closed, Queued, Finished;
      assert Balanced(jobs, waiters[w], w);
      KeptRefl(registry.View(), true, {});
      AttachedIsUnfinished(jobs, waiters, w);
      var j := waiters[w].role.job;
      if Finished(jobs[j]) {
        return false;
      }
      ghost var p := JobFacts(j);
      var e := jobs[j].entry.index;
      if !waiters[w].place.Attached? {
        return !registry.entries.cells[e].row.work.noCommit && jobs[j].queue != [];
      }
      ghost var cells, items := registry.entries.cells[..], registry.View();
      LeaveOk(jobs, waiters, w);
      LeaveKeepsRest(jobs, j, w);
      MovedMatches(cells, jobs, Leave(jobs, j, w), j);
      jobs, waiters := Leave(jobs, j, w), waiters[w := Closed(waiters[w])];
      hide Tables;
      retain := jobs[j].queue != [];
      if !retain {
        p := Doom(e);
        KeptByOthers(cells, items, {});
      }
    }

    lemma LeaveKeepsRest(jobs: seq<Job>, j: nat, w: nat)
      requires j < |jobs|
      ensures var jobs' := Leave(jobs, j, w);
              && |jobs'| == |jobs| && jobs' == jobs[j := jobs'[j]] && jobs'[j].entry == jobs[j].entry
              && jobs'[j].stage == jobs[j].stage && (Finished(jobs'[j]) <==> Finished(jobs[j]))
              && jobs'[j].verdict == jobs[j].verdict
    {
    }

    // detachAllLocked: every call that waits for the computation is on its way to an answer.
    method DetachAll(j: nat, reply: Reply, deliver: bool)
      requires Tables(jobs, waiters) && j < |jobs|
      modifies this`waiters
      ensures waiters == Released(old(waiters), j, reply, deliver)
    {
      var queue := jobs[j].queue;
      ghost var before := waiters;
      assert QueueOk(jobs[j], waiters, j);
      var i := 0;
      while i < |queue|
        invariant 0 <= i <= |queue| && |waiters| == |before|
        invariant forall w :: 0 <= w < |waiters| ==>
          waiters[w] == if w in queue[..i] then before[w].(place := Detached(reply, deliver)) else before[w]
      {
        var w := queue[i];
        assert w in queue && queue[..i + 1] == queue[..i] + [w];
        waiters := waiters[w := waiters[w].(place := Detached(reply, deliver))];
        i := i + 1;
      }
      assert queue[..i] == queue;
      forall w | 0 <= w < |before| ensures w in queue <==> WaitsFor(before[w], j) {
        assert before[w].place.Attached? ==> Listed(jobs, before[w], w);
      }
    }

    // expireComputation: the computation ran out of time, and every call that waits for it gets
    // the error.
    method Expire(j: nat, code: Code)
      requires Valid() && j < |jobs|
      modifies this`jobs, this`waiters, registry.Repr
      ensures |jobs| == |old(jobs)| && jobs[j].stage == old(jobs[j].stage) && registry.closed == old(registry.closed)
      ensures old(Finished(jobs[j])) ==> unchanged(this) && unchanged(registry.Repr)
      ensures !old(Finished(jobs[j])) ==>
        && Barred(j)
        && (old(Barred(j)) ==> unchanged(this) && unchanged(registry.Repr))
        && (!old(Barred(j)) ==>
              jobs == Emptied(old(jobs), j, old(jobs[j].stage), Error(code), true)
                && waiters == Released(old(waiters), j, Error(code), true))
      ensures Kept(old(registry.View()), registry.View())
      ensures Valid()
    {
      hide Registry.Registry.Valid, Registry.Registry.View, Memoized, Matches, Settled, Credited;
      hide PublishedIds, SameJobs, Finished, Tables;
      KeptRefl(registry.View(), true, {});
      if Finished(jobs[j]) { return; }
      ghost var p := JobFacts(j);
      var e := jobs[j].entry.index;
      if registry.entries.cells[e].row.work.noCommit { return; }
      ghost var cells, items := registry.entries.cells[..], registry.View();
      p := Doom(e);
      KeptByOthers(cells, items, {});
      assert !jobs[j].stage.Done? by { NotDone(jobs[j]); }
      ReleasedOk(jobs, waiters, j, jobs[j].stage, Error(code), true);
      EmptiedKeepsRest(jobs, j, jobs[j].stage, Error(code), true);
      MovedMatches(registry.entries.cells[..], jobs, Emptied(jobs, j, jobs[j].stage, Error(code), true), j);
      DetachAll(j, Error(code), true);
      jobs := Emptied(jobs, j, jobs[j].stage, Error(code), true);
    }

    lemma NotDone(job: Job)
      ensures !Finished(job) ==> !job.stage.Done?
    {
    }

    lemma EmptiedKeepsRest(jobs: seq<Job>, j: nat, stage: Stage, reply: Reply, deliver: bool)
      requires j < |jobs|
      ensures var jobs' := Emptied(jobs, j, stage, reply, deliver);
              && |jobs'| == |jobs| && jobs' == jobs[j := jobs'[j]] && jobs'[j].entry == jobs[j].entry
              && (stage == jobs[j].stage ==> (Finished(jobs'[j]) <==> Finished(jobs[j])))
              && jobs'[j].stage == stage
    {
    }

    // ------------------------------------------------------------ a computation comes back

    // One step of the goroutine that touches no table but its own stage.
    method Move(j: nat, stage: Stage)
      requires Valid() && j < |jobs| && !Finished(jobs[j]) && !stage.Settling? && !stage.Done?
      requires stage.Replying? ==> jobs[j].entry.index < registry.entries.cells.Length
                                   && registry.entries.cells[jobs[j].entry.index].row.memo == Some(stage.text)
      requires frugal ==> ThriftyStage(stage)
      modifies this`jobs
      ensures Valid() && jobs == Moved(old(jobs), j, stage)
    {
      hide Registry.Registry.Valid, Registry.Registry.View, Settled, Credited, PublishedIds, SameJobs, Tables;
      hide Matches, Memoized;
      MovedOk(jobs, waiters, j, stage);
      MovedMatches(registry.entries.cells[..], jobs, Moved(jobs, j, stage), j);
      jobs := Moved(jobs, j, stage);
    }

    // computationStatus says that the computation can still be of use to somebody.
    ghost predicate Usable(j: nat)
      requires j < |jobs|
      reads this, registry`closed, registry.entries.cells
    {
      !Barred(j) && !registry.closed && jobs[j].queue != []
    }

    // What handleOutcome decides from a timely outcome.
    function Decided(outcome: Outcome): (stage: Stage)
      ensures !stage.Settling? && !stage.Done? && !stage.Replying?
    {
      if outcome.successor.None? then
        if outcome.finalizes || !outcome.resultValid then Ending(Error(IoError)) else Ending(outcome.result)
      else if !outcome.finalizes || !outcome.progresses then Ending(Error(BudgetExceeded))
      else Previewing(outcome.successor.value, outcome.use)
    }

    // The first part of handleOutcome: computationStatus, then the outcome's shape. `late` is
    // the deadline of the computation's own context.
    method Arrive(j: nat, outcome: Outcome, now: int, late: bool)
      requires Valid() && j < |jobs| && jobs[j].stage.Running?
      modifies this`jobs, this`frugal
      ensures jobs == Moved(old(jobs), j,
                        if !old(Usable(j)) then Discarding
                        else if now >= old(LineOf(j)).commitDeadline then Expiring(CursorExpired)
                        else if late then Expiring(old(jobs[j]).deadlineCode)
                        else Decided(outcome))
      ensures frugal == (old(frugal) && (outcome.successor.Some? ==> Frugal(outcome.use)))
      ensures Valid()
    {
      hide Registry.Registry.Valid, Registry.Registry.View, Settled, Credited, PublishedIds, SameJobs, Tables;
      hide Matches, Memoized;
      ghost var p := JobFacts(j);
      frugal := frugal && (outcome.successor.Some? ==> Frugal(outcome.use));
      var row := registry.entries.cells[jobs[j].entry.index].row;
      if row.work.noCommit || registry.closed || jobs[j].queue == [] {
        Move(j, Discarding);
      } else if now >= registry.lineages.cells[row.lineage].row.commitDeadline {
        Move(j, Expiring(CursorExpired));
      } else if late {
        Move(j, Expiring(jobs[j].deadlineCode));
      } else {
        Move(j, Decided(outcome));
      }
    }

    // handleOutcome of an expired computation: expireComputation, then on to the discard.
    method ExpireOwn(j: nat)
      requires Valid() && j < |jobs| && jobs[j].stage.Expiring?
      modifies this`jobs, this`waiters, registry.Repr
      ensures |jobs| == |old(jobs)| && jobs[j].stage == Discarding && registry.closed == old(registry.closed) && Valid()
      ensures Kept(old(registry.View()), registry.View())
      ensures Barred(j)
      ensures !old(Barred(j)) ==>
        waiters == Released(old(waiters), j, Error(old(jobs[j].stage.code)), true)
    {
      hide Registry.Registry.Valid, Registry.Registry.View, Settled, Credited, PublishedIds, SameJobs, Tables;
      hide Matches, Memoized, Emptied;
      Expire(j, jobs[j].stage.code);
      Move(j, Discarding);
    }

    // What previewSuccessor demands before it derives the child's token.
    ghost predicate Previewable(j: nat, successor: State, now: int)
      requires j < |jobs|
      reads this, registry`closed, registry.entries.cells, registry.lineages.cells
    {
      && Usable(j) && InPhase(LineOf(j)) && now < LineOf(j).workExpiresAt && !RowOf(j).mustTerminalize
      && RowOf(j).state.Some? && successor.tool == RowOf(j).state.value.tool
        && successor.cwdId == RowOf(j).state.value.cwdId
    }

    // The token that the page may promise, if any: derived from the parent's, and not in use.
    ghost function ChildToken(j: nat, successor: State, now: int): Option<Token>
      requires j < |jobs|
      reads this, registry, registry.tokens, registry.entries.cells, registry.lineages.cells
    {
      var e := jobs[j].entry.index;
      if Previewable(j, successor, now) && e in registry.tokenOf
         && registry.derive(registry.tokenOf[e], successor.digest) !in registry.tokens.contents
      then Some(registry.derive(registry.tokenOf[e], successor.digest)) else None
    }

    // previewSuccessor: derive the token under which the page will promise its successor.
    method Preview(j: nat, now: int)
      requires Valid() && j < |jobs| && jobs[j].stage.Previewing?
      modifies this`jobs
      ensures var stage, child := old(jobs[j].stage), old(ChildToken(j, jobs[j].stage.successor, now));
              if child.Some? then jobs == Moved(old(jobs), j, Rendering(stage.successor, stage.use, child.value))
              else exists code :: jobs == Moved(old(jobs), j, Ending(Error(code)))
      ensures Valid()
    {
      hide Registry.Registry.Valid, Registry.Registry.View, Settled, Credited, PublishedIds, SameJobs, Tables;
      hide Matches, Memoized;
      ghost var p := JobFacts(j);
      hide Continuations.Valid;
      var e, successor, use := jobs[j].entry.index, jobs[j].stage.successor, jobs[j].stage.use;
      var row := registry.entries.cells[e].row;
      var line := registry.lineages.cells[row.lineage].row;
      assert RowOf(j) == row && LineOf(j) == line;
      if row.work.noCommit || jobs[j].queue == [] {
        Move(j, Ending(Error(CursorExpired)));
      } else if registry.closed || !InPhase(line) || now >= line.workExpiresAt || row.mustTerminalize {
        Move(j, Ending(Error(CursorExpired)));
      } else if row.state.None? || successor.tool != row.state.value.tool || successor.cwdId != row.state.value.cwdId {
        Move(j, Ending(Error(InvalidInput)));
      } else {
        var child := registry.DeriveChild(e, successor.digest);
        Move(j, if child.Some? then Rendering(successor, use, child.value) else Ending(Error(IoError)));
      }
    }

    // The finalizer renders the page with the child's token; `rendered` is its valid text, if any.
    method Render(j: nat, rendered: Option<string>)
      requires Valid() && j < |jobs| && jobs[j].stage.Rendering?
      modifies this`jobs
      ensures var before := old(jobs[j].stage);
              jobs == Moved(old(jobs), j,
                if rendered.None? then Ending(Error(IoError))
                else Committing(Step(before.successor, rendered.value, before.use), before.child))
      ensures Valid()
    {
      hide Registry.Registry.Valid, Registry.Registry.View, Settled, Credited, PublishedIds, SameJobs, Tables;
      hide Matches, Memoized;
      if rendered.None? {
        Move(j, Ending(Error(IoError)));
      } else {
        Move(j, Committing(Step(jobs[j].stage.successor, rendered.value, jobs[j].stage.use), jobs[j].stage.child));
      }
    }

    // A computation that may not commit cannot install a child, and neither can one whose
    // lineage left its phase.
    lemma BarredCannotStep(j: nat, step: Step, now: int)
      requires Valid() && j < |jobs| && !Finished(jobs[j])
      ensures jobs[j].entry.index < registry.entries.cells.Length
      ensures Barred(j) ==> !registry.CanStep(jobs[j].entry.index, step, now)
    {
      hide Registry.Registry.Valid, Registry.Registry.View, Settled, Credited, PublishedIds, SameJobs, Tables;
      hide Matches, Memoized, Expired, Admissible;
      var p := JobFacts(j);
      registry.SameItem(p, registry.entries.cells[jobs[j].entry.index].row.lineage);
    }

    // In every run whose outcomes are frugal, a step that uses no reserved slot is never refused
    // for want of an entry cell: what it is allowed, its child's token and admission decide.
    lemma StepFindsCell(j: nat, now: int)
      requires Valid() && frugal && j < |jobs| && jobs[j].stage.Committing? && jobs[j].stage.step.use.slots != 1
      ensures jobs[j].entry.index < registry.entries.cells.Length && jobs[j].entry.index in registry.tokenOf
      ensures
        var e, step := jobs[j].entry.index, jobs[j].stage.step;
        var row, it := registry.entries.cells[e].row,
          ItemOf(registry.Snapshot(), registry.entries.cells[e].row.lineage);
        registry.CanStep(e, step, now) <==>
          && row.successor == NO_REF && it.chain != []
          && StepAllowed(registry.cfg, it, step.successor, step.text, step.use, now)
          && !step.use.mustTerminalize
          && registry.derive(registry.tokenOf[e], step.successor.digest) !in registry.tokens.contents
          && Admissible(registry.cfg, registry.View(), registry.baseBytes, 1, step.use.bytes, now, row.lineage)
    {
      hide Registry.Registry.Valid, Registry.Registry.View, Settled, SameJobs, Tables, Matches, Memoized;
      hide Expired, Admissible;
      hide ItemOf;
      var p := JobFacts(j);
      var e, step := jobs[j].entry.index, jobs[j].stage.step;
      registry.SameItem(p, registry.entries.cells[e].row.lineage);
      if registry.entries.cells[e].row.successor == NO_REF {
        if registry.View()[p].row.shared.Some? {
          UnpaidStep(registry, p, e, step, now);
        } else {
          assert CreditedItem(registry.View()[p]);
          CreditFindsCell(registry, p, e, step, now);
        }
      }
    }

    // The step can be taken.
    ghost predicate Installs(j: nat, now: int)
      requires j < |jobs| && jobs[j].stage.Committing?
      reads this, registry.Repr
    {
      !registry.closed && registry.CanStep(jobs[j].entry.index, jobs[j].stage.step, now)
    }

    // ... and its child gets the token that the page promises.
    ghost predicate Promised(j: nat, now: int)
      requires j < |jobs| && jobs[j].stage.Committing?
      reads this, registry.Repr
    {
      var e, step := jobs[j].entry.index, jobs[j].stage.step;
      Installs(j, now) && registry.derive(registry.tokenOf[e], step.successor.digest) == jobs[j].stage.child
    }

    // Why it cannot be taken, and whether its lineage is found overdue.
    ghost function Refusal(j: nat, now: int): Code
      requires j < |jobs| && jobs[j].stage.Committing?
      reads this, registry.Repr
    {
      registry.StepRefusal(jobs[j].entry, jobs[j].stage.step, now)
    }

    ghost predicate FindsOverdue(j: nat, now: int)
      requires j < |jobs| && jobs[j].stage.Committing?
      reads this, registry.Repr
    {
      registry.FindsOverdue(jobs[j].entry, jobs[j].stage.step, now)
    }

    // What materializeSuccessor does to the view.
    ghost predicate SteppedIn(before: seq<Item>, base: nat, job: Job, l: nat, now: int, can: bool, overdue: bool,
                              child: nat, p: nat, k: nat)
      requires job.stage.Committing?
      reads registry.Repr
    {
      if can then SteppedTo(registry.cfg, before, registry.View(), base, l, job.entry.index, child, job.stage.step,
                            now, p, k)
      else if overdue then ExpiredAway(before, registry.View(), p, l, now)
      else registry.View() == before
    }

    // The parent has its memo, and the promised token stands for the child.
    ghost predicate Stored(job: Job, promised: bool, child: nat)
      requires job.stage.Committing?
      reads registry.tokens, registry.entries.cells
    {
      && RowAt(registry.entries.cells[..], job.entry.index).memo == Some(job.stage.step.text)
      && (promised ==>
        job.stage.child in registry.tokens.contents && registry.tokens.contents[job.stage.child] == child)
    }

    // How the computation goes on after materializeSuccessor: it replies if the child got the
    // token that the page promises.
    ghost predicate Committed(jobs0: seq<Job>, j: nat, can: bool, promised: bool, code: Code)
      requires j < |jobs0| && jobs0[j].stage.Committing?
      reads this
    {
      jobs == Moved(jobs0, j, if promised then Replying(jobs0[j].stage.step.text)
                              else Ending(Error(if can then IoError else CodeOf(code))))
    }

    // materializeSuccessor for the computation. Only a computation that may still commit
    // installs a child; one that may not changes nothing.
    method TakeStep(j: nat, now: int)
      returns (made: Registry.Materialized, ghost child: nat, ghost p: nat, ghost k: nat)
      requires Valid() && registry.Renewable() && j < |jobs| && jobs[j].stage.Committing?
      modifies registry.Repr
      ensures old(Barred(j)) ==> unchanged(registry.Repr) && !old(Installs(j, now))
      ensures made.Child? <==> old(Installs(j, now))
      ensures old(Promised(j, now)) <==> made.Child? && made.token == jobs[j].stage.child
      ensures made.Failed? ==> made.code == old(Refusal(j, now))
      ensures SteppedIn(old(registry.View()), old(registry.baseBytes), jobs[j], old(RowOf(j)).lineage, now,
                        old(Installs(j, now)), old(FindsOverdue(j, now)), child, p, k)
      ensures old(Installs(j, now)) ==> Stored(jobs[j], old(Promised(j, now)), child)
      ensures KeptBy(old(registry.View()), registry.View(), Frugal(jobs[j].stage.step.use), {})
      ensures registry.closed == old(registry.closed) && Valid()
    {
      hide Registry.Registry.Valid, Registry.Registry.View, Settled, Credited, PublishedIds, SameJobs, Tables;
      hide Matches, Memoized;
      hide Registry.Registry.CanStep, Registry.Registry.StepRefusal, Registry.Registry.FindsOverdue, SteppedTo;
      var entry, step := jobs[j].entry, jobs[j].stage.step;
      ghost var q := JobFacts(j);
      BarredCannotStep(j, step, now);
      ghost var cells, items := registry.entries.cells[..], registry.View();
      registry.DistinctNow();
      made, p, k := registry.Materialize(entry, step, now);
      KeptByOthers(cells, items, {});
      FailureOfBarred(items, q, p);
      child := if made.Child? then made.entry.index else 0;
    }

    // How the computation goes on from there.
    method Commit(j: nat, now: int) returns (ghost child: nat, ghost p: nat, ghost k: nat)
      requires Valid() && registry.Renewable() && j < |jobs| && jobs[j].stage.Committing?
      modifies this`jobs, registry.Repr
      ensures old(Barred(j)) ==> unchanged(registry.Repr) && !old(Installs(j, now))
      ensures Committed(old(jobs), j, old(Installs(j, now)), old(Promised(j, now)), old(Refusal(j, now)))
      ensures SteppedIn(old(registry.View()), old(registry.baseBytes), old(jobs[j]), old(RowOf(j)).lineage, now,
                        old(Installs(j, now)), old(FindsOverdue(j, now)), child, p, k)
      ensures old(Installs(j, now)) ==> Stored(old(jobs[j]), old(Promised(j, now)), child)
      ensures KeptBy(old(registry.View()), registry.View(), Frugal(old(jobs[j].stage.step).use), {})
      ensures registry.closed == old(registry.closed) && Valid()
    {
      hide Registry.Registry.Valid, Registry.Registry.View, Settled, Credited, PublishedIds, SameJobs, Tables;
      hide Matches, Memoized;
      hide Installs, Promised, Refusal, FindsOverdue, SteppedIn;
      var stage := jobs[j].stage;
      var made;
      made, child, p, k := TakeStep(j, now);
      ghost var q := JobFacts(j);
      match made {
        case Failed(code) => Move(j, Ending(Error(CodeOf(code))));
        case Child(_, token) => Move(j, if token == stage.child then Replying(stage.step.text)
          else Ending(Error(IoError)));
      }
    }

    // ------------------------------------------------------------ a computation ends

    // The end of a computation whose lineage is given up: runtime cleared, one pin less, entry
    // tombstoned (before or after), lineage removed now or with its last pin.
    method Retire(e: nat, buryFirst: bool) returns (ghost p: nat)
      requires registry.Valid() && Settled(registry.View())
      requires e < registry.entries.cells.Length && Runs(registry.entries.cells[e])
      modifies registry.Repr
      ensures registry.Valid() && Settled(registry.View()) && registry.closed == old(registry.closed)
      ensures Kept(old(registry.View()), registry.View())
      ensures SameJobs(Rested(old(registry.entries.cells[..]), e), registry.entries.cells[..])
      ensures var k := old(registry.entries.cells[e].row.page);
              && p < |old(registry.View())| && old(registry.View())[p].ref == old(registry.entries.cells[e].row.lineage)
              && k < |old(registry.View())[p].chain| && old(registry.View())[p].row.pins > 0
              && registry.View() == Retired(old(registry.View()), p, k)
    {
      hide Registry.Registry.Valid, Registry.Registry.View, Settled, Credited, PublishedIds, SameJobs, Buried;
      hide Ended, Rolled;
      ghost var cells, items, k := registry.entries.cells[..], registry.View(), registry.entries.cells[e].row.page;
      var l := registry.entries.cells[e].row.lineage;
      p := EntryOf(e);
      BuryEndCommute(items[p], k);
      BuriedRef(items[p], k);
      if buryFirst {
        BuryAt(e, p);
        EndAt(e, p);
      } else {
        EndAt(e, p);
        BuryAt(e, p);
      }
      RewrittenKeepsJobs(Rested(cells, e), e, registry.entries.cells[e]);
      ghost var rested, buried := registry.entries.cells[..], registry.View();
      assert rested == Rested(cells, e)[e := registry.entries.cells[e]];
      registry.DistinctNow();
      ghost var q := registry.PinsInView(l);
      SamePlaceInView(buried, p, q);
      var gone;
      gone, q := registry.RemoveLineage(Ref(l, registry.lineages.cells[l].generation));
      SamePlaceInView(buried, p, q);
      assert buried[..p] + buried[p + 1..] == items[..p] + items[p + 1..];
      SameJobsTrans(Rested(cells, e), rested, registry.entries.cells[..]);
      KeptRetired(items, p, k);
      assert registry.View() == Retired(items, p, k);
    }

    // Bury and EndWork, at a known place of the view.
    method BuryAt(e: nat, ghost p: nat)
      requires registry.Valid() && e < registry.entries.cells.Length && registry.entries.cells[e].occupied
      requires p < |registry.View()| && registry.View()[p].ref == registry.entries.cells[e].row.lineage
      modifies registry.Repr
      ensures registry.Valid() && registry.closed == old(registry.closed)
      ensures registry.lineages.cells.Length > old(registry.entries.cells[e].row.lineage)
              && registry.lineages.cells[old(registry.entries.cells[e].row.lineage)].occupied
      ensures var k := old(registry.entries.cells[e].row.page);
              && k < |old(registry.View())[p].chain|
                && registry.View() == old(registry.View())[p := Buried(old(registry.View())[p], k)]
      ensures registry.entries.cells[..] == old(registry.entries.cells[..])[e := registry.entries.cells[e]]
      ensures registry.entries.cells[e] == old(registry.entries.cells[e]).(row :=
                old(registry.entries.cells[e].row).(kind := registry.entries.cells[e].row.kind))
    {
      hide Registry.Registry.Valid, Registry.Registry.View, Buried, SameJobs;
      ghost var items := registry.View();
      registry.DistinctNow();
      ghost var q := registry.Bury(e);
      SamePlaceInView(items, p, q);
      q := registry.EntryFacts(e);
    }

    method EndAt(e: nat, ghost p: nat)
      requires registry.Valid() && e < registry.entries.cells.Length && Runs(registry.entries.cells[e])
      requires p < |registry.View()| && registry.View()[p].ref == registry.entries.cells[e].row.lineage
      modifies registry.Repr
      ensures registry.Valid() && registry.closed == old(registry.closed)
      ensures registry.lineages.cells.Length > old(registry.entries.cells[e].row.lineage)
              && registry.lineages.cells[old(registry.entries.cells[e].row.lineage)].occupied
      ensures var k := old(registry.entries.cells[e].row.page);
              && k < |old(registry.View())[p].chain| && old(registry.View())[p].row.pins > 0
              && registry.View() == old(registry.View())[p := Ended(old(registry.View())[p], k)]
      ensures registry.entries.cells[..] == Rested(old(registry.entries.cells[..]), e)
    {
      hide Registry.Registry.Valid, Registry.Registry.View, Ended, SameJobs;
      ghost var items := registry.View();
      registry.DistinctNow();
      ghost var q := registry.EndWork(e);
      SamePlaceInView(items, p, q);
      q := registry.EntryFacts(e);
    }

    // All calls are detached with the same reply and the computation is finished.
    ghost predicate Concluded(jobs0: seq<Job>, waiters0: seq<Waiter>, j: nat, reply: Reply, deliver: bool)
      requires j < |jobs0|
      reads this
    {
      jobs == Emptied(jobs0, j, Settling, reply, deliver) && waiters == Released(waiters0, j, reply, deliver)
    }

    // A computation that may still commit has not come to anything yet.
    lemma StillOpen(j: nat)
      requires Valid() && j < |jobs| && !Finished(jobs[j]) && !Barred(j)
      ensures jobs[j].verdict == None
    {
      hide Registry.Registry.Valid, Registry.Registry.View, Settled, Credited, Tables, Memoized;
      assert RunsJob(registry.entries.cells[..], jobs[j].entry, j);
    }

    lemma VerdictOf(jobs0: seq<Job>, waiters0: seq<Waiter>, j: nat, reply: Reply, deliver: bool)
      requires j < |jobs0| && Concluded(jobs0, waiters0, j, reply, deliver)
      ensures |jobs| == |jobs0| && (jobs0[j].verdict == None ==> jobs[j].verdict == Some(Verdict(reply, deliver)))
    {
    }

    // The lineage of the entry, at position p of the view, loses a pin and is given up.
    ghost predicate Abandoned(before: seq<Item>, row: EntryRow, p: nat)
      reads registry.Repr
    {
      && p < |before| && before[p].ref == row.lineage && row.page < |before[p].chain| && before[p].row.pins > 0
      && registry.View() == Retired(before, p, row.page)
    }

    // The lineage of computation j is given up and the computation is over.
    method GiveUp(j: nat, reply: Reply, deliver: bool, buryFirst: bool) returns (ghost p: nat)
      requires Valid() && j < |jobs| && !Finished(jobs[j])
      modifies this`jobs, this`waiters, registry.Repr
      ensures Concluded(old(jobs), old(waiters), j, reply, deliver)
      ensures Abandoned(old(registry.View()), old(RowOf(j)), p)
      ensures Kept(old(registry.View()), registry.View())
      ensures registry.closed == old(registry.closed) && Valid()
    {
      hide Registry.Registry.Valid, Registry.Registry.View, Settled, Credited, PublishedIds, SameJobs;
      hide Matches, Memoized, Retired;
      p := JobFacts(j);
      var e := jobs[j].entry.index;
      ghost var cells, items := registry.entries.cells[..], registry.View();
      ReleasedOk(jobs, waiters, j, Settling, reply, deliver);
      registry.DistinctNow();
      ghost var jobs0 := jobs;
      DetachAll(j, reply, deliver);
      ghost var q := Retire(e, buryFirst);
      SamePlaceInView(items, p, q);
      FinishMatches(cells, registry.entries.cells[..], jobs0, j, reply, deliver);
      jobs := Emptied(jobs, j, Settling, reply, deliver);
    }

    // finishDiscarded: nobody gets a response.
    method FinishDiscarded(j: nat) returns (ghost p: nat)
      requires Valid() && j < |jobs| && jobs[j].stage.Discarding?
      modifies this`jobs, this`waiters, registry.Repr
      ensures Abandoned(old(registry.View()), old(RowOf(j)), p)
      ensures Concluded(old(jobs), old(waiters), j, Text(""), false)
      ensures Kept(old(registry.View()), registry.View())
      ensures registry.closed == old(registry.closed) && Valid()
    {
      hide Registry.Registry.Valid, Registry.Registry.View, Settled, Credited, PublishedIds, SameJobs;
      hide Matches, Memoized, Tables, Concluded, Abandoned;
      p := GiveUp(j, Text(""), false, false);
    }

    // finishTerminal: the last page, or an error, goes to all who wait, unless the computation
    // lost its purpose meanwhile; the lineage is over either way.
    method FinishTerminal(j: nat) returns (ghost p: nat)
      requires Valid() && j < |jobs| && jobs[j].stage.Ending?
      modifies this`jobs, this`waiters, registry.Repr
      ensures Abandoned(old(registry.View()), old(RowOf(j)), p)
      ensures Concluded(old(jobs), old(waiters), j, old(jobs[j].stage.reply), old(Usable(j)))
      ensures old(Usable(j)) ==>
        |jobs| == |old(jobs)| && jobs[j].verdict == Some(Verdict(old(jobs[j].stage.reply), true))
      ensures Kept(old(registry.View()), registry.View())
      ensures registry.closed == old(registry.closed) && Valid()
    {
      hide Registry.Registry.Valid, Registry.Registry.View, Settled, Credited, PublishedIds, SameJobs;
      hide Matches, Memoized, Tables, Concluded, Abandoned;
      p := JobFacts(j);
      var row := registry.entries.cells[jobs[j].entry.index].row;
      var deliver := !registry.closed && !row.work.noCommit && jobs[j].queue != [];
      if deliver { StillOpen(j); }
      ghost var jobs0, waiters0 := jobs, waiters;
      p := GiveUp(j, jobs[j].stage.reply, deliver, true);
      VerdictOf(jobs0, waiters0, j, jobs0[j].stage.reply, deliver);
    }

    // The page goes to all who wait, and the lineage stays.
    method Conclude(j: nat, ghost p: nat)
      requires Valid() && j < |jobs| && jobs[j].stage.Replying?
      requires p < |registry.View()| && registry.View()[p].ref == RowOf(j).lineage
      requires InPhase(registry.View()[p].row)
      modifies this`jobs, this`waiters, registry.Repr
      ensures Concluded(old(jobs), old(waiters), j, Text(old(jobs[j]).stage.text), true)
      ensures old(RowOf(j).page) < |old(registry.View())[p].chain| && old(registry.View())[p].row.pins > 0
      ensures registry.View() == old(registry.View())[p := Ended(old(registry.View())[p], old(RowOf(j).page))]
      ensures Kept(old(registry.View()), registry.View())
      ensures registry.closed == old(registry.closed) && Valid()
    {
      hide Registry.Registry.Valid, Registry.Registry.View, Settled, Credited, PublishedIds, SameJobs;
      hide Matches, Memoized, Ended;
      ghost var q := JobFacts(j);
      registry.DistinctNow();
      ghost var cells, items, jobs0 := registry.entries.cells[..], registry.View(), jobs;
      SamePlaceInView(items, p, q);
      var e, text := jobs[j].entry.index, jobs[j].stage.text;
      ReleasedOk(jobs, waiters, j, Settling, Text(text), true);
      DetachAll(j, Text(text), true);
      EndAt(e, p);
      KeptEnded(items, p, cells[e].row.page);
      SameJobsRefl(registry.entries.cells[..]);
      FinishMatches(cells, registry.entries.cells[..], jobs0, j, Text(text), true);
      jobs := Emptied(jobs, j, Settling, Text(text), true);
    }

    // finishPartial: the page goes to all who wait, and it is the memo that later calls with
    // the same cursor will get. If the computation lost its purpose after the commit, its
    // lineage is given up with the fresh child.
    method FinishPartial(j: nat) returns (valid: bool, ghost p: nat)
      requires Valid() && j < |jobs| && jobs[j].stage.Replying?
      modifies this`jobs, this`waiters, registry.Repr
      ensures var row := old(RowOf(j));
              && p < |old(registry.View())| && old(registry.View())[p].ref == row.lineage
              && row.page < |old(registry.View())[p].chain| && old(registry.View())[p].row.pins > 0
              && (valid <==> old(Usable(j)) && InPhase(old(registry.View())[p].row))
              && row.memo == Some(old(jobs[j].stage.text))
              && Concluded(old(jobs), old(waiters), j, Text(row.memo.value), valid)
              && (valid ==> jobs[j].verdict == Some(Verdict(Text(row.memo.value), true)))
              && registry.View() == if valid then old(registry.View())[p := Ended(old(registry.View())[p], row.page)]
                                    else Retired(old(registry.View()), p, row.page)
      ensures Kept(old(registry.View()), registry.View())
      ensures registry.closed == old(registry.closed) && Valid()
    {
      hide Registry.Registry.Valid, Registry.Registry.View, Settled, Credited, PublishedIds, SameJobs;
      hide Matches, Retired, Ended;
      p := JobFacts(j);
      var e, text := jobs[j].entry.index, jobs[j].stage.text;
      var row := registry.entries.cells[e].row;
      assert row.memo == Some(text);
      hide Memoized;
      valid := !registry.closed && !row.work.noCommit && jobs[j].queue != []
        && InPhase(registry.lineages.cells[row.lineage].row);
      ghost var items := registry.View();
      registry.DistinctNow();
      ghost var jobs0, waiters0 := jobs, waiters;
      if valid {
        StillOpen(j);
        Conclude(j, p);
        VerdictOf(jobs0, waiters0, j, Text(text), true);
      } else {
        ghost var q := GiveUp(j, Text(text), false, false);
        SamePlaceInView(items, p, q);
      }
    }

    // ------------------------------------------------------------ answers and leases go out

    // One round of deliverWaiters: the call gets its answer unless it is cancelled, and a
    // joiner's lease goes back.
    method Deliver(w: nat, cancelled: bool)
      requires Valid() && w < |waiters| && waiters[w].place.Detached?
      modifies this`waiters
      ensures waiters == old(waiters)[w := AnsweredNow(old(waiters[w]), cancelled)] && Valid()
      ensures waiters[w].place == if old(waiters[w].place.deliver) && !cancelled
              then Delivered(old(waiters[w].place.reply))
                                  else ClosedSilently
      ensures waiters[w].leaseReturns == old(waiters[w].leaseReturns) + (if waiters[w].role.Joiner? then 1 else 0)
    {
      hide Registry.Registry.Valid, Registry.Registry.View, Settled, Credited, PublishedIds, Matches, Memoized, Tables;
      AnsweredOk(jobs, waiters, w, cancelled);
      waiters := waiters[w := AnsweredNow(waiters[w], cancelled)];
    }

    // The lease of the call that started the computation goes back last.
    method ReturnWork(j: nat)
      requires Valid() && j < |jobs| && jobs[j].stage.Settling?
      modifies this`jobs, this`waiters
      ensures old(jobs[j].starter) < |old(waiters)| && jobs == Moved(old(jobs), j, Done)
      ensures var s := old(jobs[j].starter);
              waiters == old(waiters)[s := old(waiters[s]).(leaseReturns := old(waiters[s]).leaseReturns + 1)]
      ensures Valid()
    {
      hide Registry.Registry.Valid, Registry.Registry.View, Settled, Credited, PublishedIds, Matches, Memoized, Tables;
      ReturnedOk(jobs, waiters, j);
      DoneMatches(registry.entries.cells[..], jobs, j);
      var s := jobs[j].starter;
      waiters := waiters[s := waiters[s].(leaseReturns := waiters[s].leaseReturns + 1)];
      jobs := Moved(jobs, j, Done);
    }

    // The connection closes under running computations.
    method CloseRegistry()
      requires Valid()
      modifies registry.Repr
      ensures registry.View() == if old(registry.closed) then old(registry.View()) else ClosedView(old(registry.View()))
      ensures Kept(old(registry.View()), registry.View())
      ensures registry.closed && Valid()
    {
      hide Registry.Registry.Valid, Registry.Registry.View, Settled, Credited, PublishedIds, Matches;
      hide Memoized, Tables, SameJobs;
      ghost var cells, items := registry.entries.cells[..], registry.View();
      registry.Close();
      KeptWeakens(items, registry.View(), frugal);
      KeptByOthers(cells, items, {});
    }
  }

  lemma ForbiddenRef(it: Item, k: nat)
    requires k < |it.chain|
    ensures Forbidden(it, k).ref == it.ref
  {
  }

  lemma BuriedRef(it: Item, k: nat)
    requires k < |it.chain| && it.row.pins > 0
    ensures Buried(it, k).ref == it.ref == Ended(it, k).ref
            && |Buried(it, k).chain| == |it.chain| == |Ended(it, k).chain|
    ensures Buried(it, k).row.pins == it.row.pins && Buried(Ended(it, k), k).ref == it.ref
  {
  }

  // A refusal that hits a lineage out of phase found nothing to remove.
  lemma FailureOfBarred(items: seq<Item>, p: nat, q: nat)
    requires DistinctRefs(items) && p < |items|
    ensures q < |items| && items[q].ref == items[p].ref && items[p].row.flags == RollbackPending ==>
      !Live(items[q].row.flags)
  {
  }
}
