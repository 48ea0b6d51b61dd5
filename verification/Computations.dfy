// The continuation protocol of the cursor registry as values (internal/cursor/continue.go):
// one row per computation and one per call of Continue, the invariants that tie them to each
// other and to the entries that run them, and why every section keeps them.

module Computations {
  import opened Wrappers
  import opened Arena
  import opened RegistryModel
  import opened RegistryState
  import opened RegistrySteps

  datatype Reply = Text(text: string) | Error(code: Code)

  // CodeOf: a broken invariant is reported as an I/O error.
  function CodeOf(code: Code): Code { if code == Invariant then IoError else code }

  // What a computation proposes: a result, or a successor with a finalizer for its page.
  datatype Outcome = Outcome(
    result: Reply, resultValid: bool, successor: Option<State>, use: ReservationUse, finalizes: bool, progresses: bool)

  // Where the goroutine of a computation stands between two locked sections.
  datatype Stage =
    | Running
    | Expiring(code: Code)
    | Discarding
    | Ending(reply: Reply)
    | Previewing(successor: State, use: ReservationUse)
    | Rendering(successor: State, use: ReservationUse, child: Token)
    | Committing(step: Step, child: Token)
    | Replying(text: string)
    | Settling
    | Done

  // What a computation came to: the reply for all who waited for it, and whether they get it.
  datatype Verdict = Verdict(reply: Reply, deliver: bool)

  // A computation: the entry it runs for, the call that started it, the calls that wait for it,
  // in order of arrival, and what it came to, once that is known. Whether it may commit is
  // stored with the entry.
  datatype Job = Job(entry: Ref, deadlineCode: Code, starter: nat, queue: seq<nat>, stage: Stage,
                     verdict: Option<Verdict>)

  predicate Finished(job: Job) { job.stage.Settling? || job.stage.Done? }

  // A call of Continue: attached to its computation, detached with an answer on its way, or
  // answered. `answers` and `leaseReturns` count what its client and its work lease have seen,
  // and `cancelled` tells whether the client had cancelled the call by the time of its answer.
  datatype Place = Attached | Detached(reply: Reply, deliver: bool) | Delivered(reply: Reply) | ClosedSilently

  datatype Role = Alone | Joiner(job: nat) | Starter(job: nat)

  datatype Waiter = Waiter(role: Role, place: Place, answers: nat, leaseReturns: nat, cancelled: bool)

  predicate Answered(waiter: Waiter) { waiter.place.Delivered? || waiter.place.ClosedSilently? }

  function Count(b: bool): nat { if b then 1 else 0 }

  function Final(reply: Reply, cancelled: bool): Place {
    if cancelled then ClosedSilently else Delivered(reply)
  }

  // ---------------------------------------------------------------- invariants

  // The entry runs exactly this computation.
  predicate RunsJob(cells: seq<Cell<EntryRow>>, ref: Ref, j: nat) {
    && ref.index < |cells| && Runs(cells[ref.index])
    && cells[ref.index].generation == ref.generation && cells[ref.index].row.work.id == j
  }

  // The entries that run something run the unfinished computations, each its own.
  ghost predicate Matches(cells: seq<Cell<EntryRow>>, jobs: seq<Job>) {
    && (forall j :: 0 <= j < |jobs| && !Finished(jobs[j]) ==> RunsJob(cells, jobs[j].entry, j))
    && (forall e :: 0 <= e < |cells| && Runs(cells[e]) ==> OwnedBy(jobs, e, cells[e].row.work.id))
    && (forall j :: 0 <= j < |jobs| && !Finished(jobs[j]) && jobs[j].verdict.Some? ==>
          BarredAt(cells, jobs[j].entry.index))
  }

  // A computation that is known to come to nothing may not commit.
  predicate BarredAt(cells: seq<Cell<EntryRow>>, e: nat) {
    e < |cells| && cells[e].row.work.Computing? && cells[e].row.work.noCommit
  }

  predicate OwnedBy(jobs: seq<Job>, e: nat, id: nat) {
    id < |jobs| && !Finished(jobs[id]) && jobs[id].entry.index == e
  }

  // What a computation is about to reply is the memo of its entry.
  ghost predicate Memoized(cells: seq<Cell<EntryRow>>, jobs: seq<Job>) {
    forall j :: 0 <= j < |jobs| && jobs[j].stage.Replying? ==>
      jobs[j].entry.index < |cells| && cells[jobs[j].entry.index].row.memo == Some(jobs[j].stage.text)
  }

  predicate WaitsFor(waiter: Waiter, j: nat) {
    waiter.place.Attached? && !waiter.role.Alone? && waiter.role.job == j
  }

  // The queues hold exactly the attached calls, each once, and only unfinished computations
  // have any.
  ghost predicate Queued(jobs: seq<Job>, waiters: seq<Waiter>) {
    && (forall j :: 0 <= j < |jobs| ==> QueueOk(jobs[j], waiters, j))
    && (forall w :: 0 <= w < |waiters| && waiters[w].place.Attached? ==> Listed(jobs, waiters[w], w))
  }

  ghost predicate QueueOk(job: Job, waiters: seq<Waiter>, j: nat) {
    && Distinct(job.queue)
    && (forall w :: w in job.queue ==> w < |waiters| && WaitsFor(waiters[w], j))
    && (Finished(job) ==> job.queue == [])
  }

  predicate Listed(jobs: seq<Job>, waiter: Waiter, w: nat) {
    !waiter.role.Alone? && waiter.role.job < |jobs| && w in jobs[waiter.role.job].queue
  }

  // A call is answered at most once. Its lease goes back once: with the answer, or, for the
  // call that started a computation, when that computation is done.
  predicate Balanced(jobs: seq<Job>, waiter: Waiter, w: nat) {
    && waiter.answers == Count(Answered(waiter))
    && match waiter.role
       case Alone => Answered(waiter) && waiter.leaseReturns == 1
       case Joiner(j) => j < |jobs| && waiter.leaseReturns == waiter.answers
       case Starter(j) => j < |jobs| && jobs[j].starter == w && waiter.leaseReturns == Count(jobs[j].stage.Done?)
  }

  ghost predicate Accounts(jobs: seq<Job>, waiters: seq<Waiter>) {
    && (forall w :: 0 <= w < |waiters| ==> Balanced(jobs, waiters[w], w))
    && (forall j :: 0 <= j < |jobs| ==> jobs[j].starter < |waiters| && waiters[jobs[j].starter].role == Starter(j))
  }

  // What a call was told is what its computation came to. Only a call that was cancelled, or
  // whose computation has nothing to deliver, is closed without an answer.
  predicate ToldBy(verdict: Option<Verdict>, waiter: Waiter) {
    match waiter.place
    case Attached => verdict.None? && !waiter.cancelled
    case Detached(reply, deliver) => verdict == Some(Verdict(reply, deliver)) && !waiter.cancelled
    case Delivered(reply) => verdict == Some(Verdict(reply, true)) && !waiter.cancelled
    case ClosedSilently => waiter.cancelled || (verdict.Some? && !verdict.value.deliver)
  }

  predicate Told(jobs: seq<Job>, waiter: Waiter) {
    match waiter.role
    case Alone => waiter.place.ClosedSilently? <==> waiter.cancelled
    case Joiner(j) => j < |jobs| && ToldBy(jobs[j].verdict, waiter)
    case Starter(j) => j < |jobs| && ToldBy(jobs[j].verdict, waiter)
  }

  ghost predicate AllTold(jobs: seq<Job>, waiters: seq<Waiter>) {
    forall w :: 0 <= w < |waiters| ==> Told(jobs, waiters[w])
  }

  ghost predicate Tables(jobs: seq<Job>, waiters: seq<Waiter>) {
    Queued(jobs, waiters) && Accounts(jobs, waiters) && AllTold(jobs, waiters)
  }

  // ---------------------------------------------------------------- consequences

  // At most one computation runs for an entry.
  lemma OnePerEntry(cells: seq<Cell<EntryRow>>, jobs: seq<Job>, i: nat, j: nat)
    requires Matches(cells, jobs) && i < |jobs| && j < |jobs| && !Finished(jobs[i]) && !Finished(jobs[j])
    requires jobs[i].entry.index == jobs[j].entry.index
    ensures i == j
  {
    assert RunsJob(cells, jobs[i].entry, i) && RunsJob(cells, jobs[j].entry, j);
  }

  lemma AttachedIsUnfinished(jobs: seq<Job>, waiters: seq<Waiter>, w: nat)
    requires Queued(jobs, waiters) && w < |waiters|
    ensures waiters[w].place.Attached? ==>
      !waiters[w].role.Alone? && waiters[w].role.job < |jobs| && !Finished(jobs[waiters[w].role.job])
  {
    if waiters[w].place.Attached? {
      assert Listed(jobs, waiters[w], w);
      assert QueueOk(jobs[waiters[w].role.job], waiters, waiters[w].role.job);
    }
  }

  // Once every computation is done and nothing is on its way, every call has had exactly one
  // answer and every lease went back exactly once.
  lemma EachCallAnsweredOnce(jobs: seq<Job>, waiters: seq<Waiter>)
    requires Tables(jobs, waiters)
    requires forall j :: 0 <= j < |jobs| ==> jobs[j].stage.Done?
    requires forall w :: 0 <= w < |waiters| ==> !waiters[w].place.Detached?
    ensures forall w :: 0 <= w < |waiters| ==>
      Answered(waiters[w]) && waiters[w].answers == 1 && waiters[w].leaseReturns == 1
  {
    forall w | 0 <= w < |waiters| ensures Answered(waiters[w]) && waiters[w].answers == 1
      && waiters[w].leaseReturns == 1 {
      assert Balanced(jobs, waiters[w], w);
      AttachedIsUnfinished(jobs, waiters, w);
    }
  }

  // Nor ever more than one of either.
  lemma NeverTwice(jobs: seq<Job>, waiters: seq<Waiter>, w: nat)
    requires Tables(jobs, waiters) && w < |waiters|
    ensures waiters[w].answers <= 1 && waiters[w].leaseReturns <= 1
  {
    assert Balanced(jobs, waiters[w], w);
  }

  // The pins of a lineage count the unfinished computations on its entries, so when all
  // computations are finished no lineage is out of phase.
  lemma AllInPhase(cells: seq<Cell<EntryRow>>, jobs: seq<Job>, items: seq<Item>)
    requires Matches(cells, jobs) && Settled(items)
    requires forall j :: 0 <= j < |jobs| ==> Finished(jobs[j])
    requires forall p, k :: 0 <= p < |items| && 0 <= k < |items[p].chain| ==> StoredIn(cells, items[p].chain[k])
    requires forall p :: 0 <= p < |items| ==> Accounted(items[p])
    ensures forall p :: 0 <= p < |items| ==> InPhase(items[p].row) && items[p].row.pins == 0
  {
    forall p | 0 <= p < |items| ensures InPhase(items[p].row) && items[p].row.pins == 0 {
      forall k | 0 <= k < |items[p].chain| ensures items[p].chain[k].work.Idle? {
        assert StoredIn(cells, items[p].chain[k]);
      }
      IdleChain(items[p].chain);
      assert SettledItem(items[p]);
    }
  }

  // The row of an occupied cell.
  ghost predicate StoredIn(cells: seq<Cell<EntryRow>>, row: EntryRow) {
    exists e :: 0 <= e < |cells| && cells[e].occupied && cells[e].row == row
  }

  lemma {:induction false} IdleChain(chain: seq<EntryRow>)
    requires forall k :: 0 <= k < |chain| ==> chain[k].work.Idle?
    ensures CountWork(chain) == 0
  {
    if chain != [] { IdleChain(chain[..|chain| - 1]); }
  }

  // Any section that leaves the running computations alone keeps the protocol.
  lemma OtherSectionsKeep(a: seq<Cell<EntryRow>>, b: seq<Cell<EntryRow>>, jobs: seq<Job>)
    requires Matches(a, jobs) && Memoized(a, jobs) && SameJobs(a, b)
    ensures Matches(b, jobs) && Memoized(b, jobs)
  {
    forall j | 0 <= j < |jobs| && !Finished(jobs[j]) ensures RunsJob(b, jobs[j].entry, j) {
      assert RunsJob(a, jobs[j].entry, j);
    }
    forall j | 0 <= j < |jobs| && jobs[j].stage.Replying?
      ensures jobs[j].entry.index < |b| && b[jobs[j].entry.index].row.memo == Some(jobs[j].stage.text)
    {
      assert RunsJob(a, jobs[j].entry, j);
    }
  }

  // ---------------------------------------------------------------- steps

  // A call that is answered on the spot.
  function Immediate(reply: Reply, cancelled: bool): Waiter { Waiter(Alone, Final(reply, cancelled), 1, 1, cancelled) }

  lemma ImmediateOk(jobs: seq<Job>, waiters: seq<Waiter>, reply: Reply, cancelled: bool)
    requires Tables(jobs, waiters)
    ensures Tables(jobs, waiters + [Immediate(reply, cancelled)])
  {
    AddedWaiter(jobs, waiters, Immediate(reply, cancelled));
  }

  lemma AddedWaiter(jobs: seq<Job>, waiters: seq<Waiter>, waiter: Waiter)
    requires Tables(jobs, waiters) && Balanced(jobs, waiter, |waiters|) && !waiter.place.Attached?
    requires Told(jobs, waiter)
    ensures Tables(jobs, waiters + [waiter])
  {
    var waiters' := waiters + [waiter];
    forall w | 0 <= w < |waiters'| ensures Balanced(jobs, waiters'[w], w) {
      assert w < |waiters| ==> Balanced(jobs, waiters[w], w);
    }
  }

  function Joined(jobs: seq<Job>, j: nat, w: nat): seq<Job>
    requires j < |jobs|
  {
    jobs[j := jobs[j].(queue := jobs[j].queue + [w])]
  }

  lemma JoinedOk(jobs: seq<Job>, waiters: seq<Waiter>, j: nat)
    requires Tables(jobs, waiters) && j < |jobs| && !Finished(jobs[j]) && jobs[j].verdict.None?
    ensures Tables(Joined(jobs, j, |waiters|), waiters + [Waiter(Joiner(j), Attached, 0, 0, false)])
  {
    var jobs', waiters' := Joined(jobs, j, |waiters|), waiters + [Waiter(Joiner(j), Attached, 0, 0, false)];
    forall w | 0 <= w < |waiters'| ensures Balanced(jobs', waiters'[w], w) {
      assert w < |waiters| ==> Balanced(jobs, waiters[w], w);
    }
    forall w | 0 <= w < |waiters'| && waiters'[w].place.Attached? ensures Listed(jobs', waiters'[w], w) {
      if w < |waiters| {
        assert Listed(jobs, waiters[w], w);
      } else {
        assert jobs'[j].queue[|jobs[j].queue|] == w;
      }
    }
    forall i | 0 <= i < |jobs'| ensures QueueOk(jobs'[i], waiters', i) && jobs'[i].starter == jobs[i].starter {
      assert QueueOk(jobs[i], waiters, i);
      DistinctPlus(jobs[i].queue, |waiters|);
    }
  }

  lemma DistinctPlus(queue: seq<nat>, w: nat)
    requires Distinct(queue) && w !in queue
    ensures Distinct(queue + [w])
  {
    forall k | 0 <= k < |queue| ensures queue[k] != w {
      assert queue[k] in queue;
    }
  }

  function NewJob(entry: Ref, code: Code, w: nat): Job { Job(entry, code, w, [w], Running, None) }

  lemma StartedJobOk(jobs: seq<Job>, waiters: seq<Waiter>, entry: Ref, code: Code)
    requires Tables(jobs, waiters)
    ensures Tables(jobs + [NewJob(entry, code, |waiters|)], waiters + [Waiter(Starter(|jobs|), Attached, 0, 0, false)])
  {
    var jobs', waiters' := jobs + [NewJob(entry, code, |waiters|)],
        waiters + [Waiter(Starter(|jobs|), Attached, 0, 0, false)];
    forall w | 0 <= w < |waiters'| ensures Balanced(jobs', waiters'[w], w) {
      assert w < |waiters| ==> Balanced(jobs, waiters[w], w);
    }
    forall w | 0 <= w < |waiters'| && waiters'[w].place.Attached? ensures Listed(jobs', waiters'[w], w) {
      if w < |waiters| {
        assert Listed(jobs, waiters[w], w);
      } else {
        assert jobs'[|jobs|].queue[0] == w;
      }
    }
    forall i | 0 <= i < |jobs'| ensures QueueOk(jobs'[i], waiters', i) {
      assert i < |jobs| ==> QueueOk(jobs[i], waiters, i);
    }
  }

  // The entry runs computation `id`.
  function Marked(cells: seq<Cell<EntryRow>>, e: nat, id: nat): seq<Cell<EntryRow>>
    requires e < |cells|
  {
    cells[e := cells[e].(row := cells[e].row.(work := Computing(id, false)))]
  }

  // The entry of a new computation starts to run it.
  lemma StartMatches(a: seq<Cell<EntryRow>>, b: seq<Cell<EntryRow>>, jobs: seq<Job>, entry: Ref, code: Code, w: nat)
    requires Matches(a, jobs) && Memoized(a, jobs) && entry.index < |a| && a[entry.index].occupied
    requires a[entry.index].generation == entry.generation && a[entry.index].row.work.Idle?
    requires b == a[entry.index := a[entry.index].(row := a[entry.index].row.(work := Computing(|jobs|, false)))]
    ensures Matches(b, jobs + [NewJob(entry, code, w)]) && Memoized(b, jobs + [NewJob(entry, code, w)])
  {
    var jobs' := jobs + [NewJob(entry, code, w)];
    forall j | 0 <= j < |jobs'| && !Finished(jobs'[j]) ensures RunsJob(b, jobs'[j].entry, j) {
      if j < |jobs| { assert RunsJob(a, jobs[j].entry, j); }
    }
    forall e | 0 <= e < |b| && Runs(b[e]) ensures OwnedBy(jobs', e, b[e].row.work.id) {
      if e != entry.index { assert OwnedBy(jobs, e, a[e].row.work.id); }
    }
    assert forall j :: 0 <= j < |jobs'| && jobs'[j].stage.Replying? ==> j < |jobs|;
  }

  // One call leaves its queue and is closed without a response.
  function Leave(jobs: seq<Job>, j: nat, w: nat): seq<Job>
    requires j < |jobs|
  {
    jobs[j := jobs[j].(queue := Without(jobs[j].queue, w))]
  }

  function Closed(waiter: Waiter): Waiter {
    waiter.(place := ClosedSilently, cancelled := true, answers := waiter.answers + 1,
            leaseReturns := waiter.leaseReturns + Count(waiter.role.Joiner?))
  }

  lemma DistinctMinus(queue: seq<nat>, w: nat)
    requires Distinct(queue) && w in queue
    ensures Distinct(Without(queue, w))
  {
    var k :| 0 <= k < |queue| && queue[k] == w;
    WithoutAt(queue, k);
  }

  // A queue is as sound without the call that leaves it, and others do not hold that call.
  lemma QueueWithout(job: Job, waiters: seq<Waiter>, i: nat, w: nat, waiter: Waiter)
    requires QueueOk(job, waiters, i) && w < |waiters|
    ensures w in job.queue ==> QueueOk(job.(queue := Without(job.queue, w)), waiters[w := waiter], i)
    ensures w !in job.queue ==> QueueOk(job, waiters[w := waiter], i)
  {
    if w in job.queue { DistinctMinus(job.queue, w); }
    hide Distinct, Without;
  }

  lemma LeaveQueued(jobs: seq<Job>, waiters: seq<Waiter>, w: nat)
    requires Queued(jobs, waiters) && w < |waiters| && waiters[w].place.Attached?
    ensures !waiters[w].role.Alone? && waiters[w].role.job < |jobs| && w in jobs[waiters[w].role.job].queue
    ensures Queued(Leave(jobs, waiters[w].role.job, w), waiters[w := Closed(waiters[w])])
  {
    assert Listed(jobs, waiters[w], w);
    var j := waiters[w].role.job;
    var jobs', waiters' := Leave(jobs, j, w), waiters[w := Closed(waiters[w])];
    forall i | 0 <= i < |jobs'| ensures QueueOk(jobs'[i], waiters', i) {
      assert QueueOk(jobs[i], waiters, i);
      assert i != j ==> w !in jobs[i].queue;
      QueueWithout(jobs[i], waiters, i, w, Closed(waiters[w]));
    }
    hide QueueOk;
    forall v | 0 <= v < |waiters'| && waiters'[v].place.Attached? ensures Listed(jobs', waiters'[v], v) {
      assert Listed(jobs, waiters[v], v);
    }
  }

  lemma LeaveOk(jobs: seq<Job>, waiters: seq<Waiter>, w: nat)
    requires Tables(jobs, waiters) && w < |waiters| && waiters[w].place.Attached?
    ensures !waiters[w].role.Alone? && waiters[w].role.job < |jobs| && w in jobs[waiters[w].role.job].queue
    ensures Tables(Leave(jobs, waiters[w].role.job, w), waiters[w := Closed(waiters[w])])
  {
    LeaveQueued(jobs, waiters, w);
    LeaveAccounts(jobs, waiters, w);
    hide Queued, Accounts;
  }

  lemma LeaveAccounts(jobs: seq<Job>, waiters: seq<Waiter>, w: nat)
    requires Accounts(jobs, waiters) && w < |waiters| && waiters[w].place.Attached?
    requires !waiters[w].role.Alone? && waiters[w].role.job < |jobs|
    ensures Accounts(Leave(jobs, waiters[w].role.job, w), waiters[w := Closed(waiters[w])])
  {
    var j := waiters[w].role.job;
    var jobs', waiters' := Leave(jobs, j, w), waiters[w := Closed(waiters[w])];
    hide Without, Balanced;
    forall v | 0 <= v < |waiters'| ensures Balanced(jobs', waiters'[v], v) {
      BalancedThere(jobs, jobs', waiters[v], v);
      ClosedBalance(jobs', waiters[w], w);
    }
    forall i | 0 <= i < |jobs'| ensures jobs'[i].starter < |waiters'| && waiters'[jobs'[i].starter].role == Starter(i) {
      assert jobs'[i].starter == jobs[i].starter;
    }
  }

  // What a call has got depends on no queue.
  lemma BalancedThere(jobs: seq<Job>, jobs': seq<Job>, waiter: Waiter, v: nat)
    requires Balanced(jobs, waiter, v) && |jobs'| == |jobs|
    requires forall i :: 0 <= i < |jobs| ==> jobs'[i].starter == jobs[i].starter && jobs'[i].stage == jobs[i].stage
    ensures Balanced(jobs', waiter, v)
  {
  }

  // A call that leaves is answered by being closed.
  lemma ClosedBalance(jobs: seq<Job>, waiter: Waiter, w: nat)
    ensures Balanced(jobs, waiter, w) && waiter.place.Attached? ==> Balanced(jobs, Closed(waiter), w)
  {
  }

  // detachAllLocked, seen from the calls: those that wait for j are on their way to an answer.
  function Released(waiters: seq<Waiter>, j: nat, reply: Reply, deliver: bool): (r: seq<Waiter>)
    ensures |r| == |waiters|
    ensures forall w :: 0 <= w < |r| ==>
      r[w] == if WaitsFor(waiters[w], j) then waiters[w].(place := Detached(reply, deliver)) else waiters[w]
  {
    seq(|waiters|, w requires 0 <= w < |waiters| =>
      if WaitsFor(waiters[w], j) then waiters[w].(place := Detached(reply, deliver)) else waiters[w])
  }

  // All calls leave the queue of computation j with this reply, and it goes on to another stage.
  function Emptied(jobs: seq<Job>, j: nat, stage: Stage, reply: Reply, deliver: bool): seq<Job>
    requires j < |jobs|
  {
    jobs[j := jobs[j].(queue := [], stage := stage,
                       verdict := if jobs[j].verdict.Some? then jobs[j].verdict else Some(Verdict(reply, deliver)))]
  }

  lemma ReleasedOk(jobs: seq<Job>, waiters: seq<Waiter>, j: nat, stage: Stage, reply: Reply, deliver: bool)
    requires Tables(jobs, waiters) && j < |jobs| && !stage.Done? && !jobs[j].stage.Done?
    ensures Tables(Emptied(jobs, j, stage, reply, deliver), Released(waiters, j, reply, deliver))
  {
    hide Queued, Accounts, AllTold, Emptied, Released;
    ReleasedQueues(jobs, waiters, j, stage, reply, deliver);
    ReleasedAccounts(jobs, waiters, j, stage, reply, deliver);
    ReleasedTold(jobs, waiters, j, stage, reply, deliver);
  }

  lemma ReleasedQueues(jobs: seq<Job>, waiters: seq<Waiter>, j: nat, stage: Stage, reply: Reply, deliver: bool)
    requires Queued(jobs, waiters) && j < |jobs|
    ensures Queued(Emptied(jobs, j, stage, reply, deliver), Released(waiters, j, reply, deliver))
  {
    var jobs', waiters' := Emptied(jobs, j, stage, reply, deliver), Released(waiters, j, reply, deliver);
    forall w | 0 <= w < |waiters'| && waiters'[w].place.Attached? ensures Listed(jobs', waiters'[w], w) {
      assert Listed(jobs, waiters[w], w);
    }
    forall i | 0 <= i < |jobs'| ensures QueueOk(jobs'[i], waiters', i) {
      assert QueueOk(jobs[i], waiters, i);
      hide Distinct;
    }
  }

  lemma ReleasedAccounts(jobs: seq<Job>, waiters: seq<Waiter>, j: nat, stage: Stage, reply: Reply, deliver: bool)
    requires Accounts(jobs, waiters) && j < |jobs| && !stage.Done? && !jobs[j].stage.Done?
    ensures Accounts(Emptied(jobs, j, stage, reply, deliver), Released(waiters, j, reply, deliver))
  {
    var jobs', waiters' := Emptied(jobs, j, stage, reply, deliver), Released(waiters, j, reply, deliver);
    forall w | 0 <= w < |waiters'| ensures Balanced(jobs', waiters'[w], w) {
      assert Balanced(jobs, waiters[w], w);
    }
    forall i | 0 <= i < |jobs'| ensures jobs'[i].starter == jobs[i].starter {
    }
  }

  lemma ReleasedTold(jobs: seq<Job>, waiters: seq<Waiter>, j: nat, stage: Stage, reply: Reply, deliver: bool)
    requires AllTold(jobs, waiters) && j < |jobs|
    ensures AllTold(Emptied(jobs, j, stage, reply, deliver), Released(waiters, j, reply, deliver))
  {
    var jobs', waiters' := Emptied(jobs, j, stage, reply, deliver), Released(waiters, j, reply, deliver);
    forall w | 0 <= w < |waiters'| ensures Told(jobs', waiters'[w]) {
      assert Told(jobs, waiters[w]);
    }
  }

  // A computation moves on without anybody noticing.
  function Moved(jobs: seq<Job>, j: nat, stage: Stage): seq<Job>
    requires j < |jobs|
  {
    jobs[j := jobs[j].(stage := stage)]
  }

  lemma MovedOk(jobs: seq<Job>, waiters: seq<Waiter>, j: nat, stage: Stage)
    requires Tables(jobs, waiters) && j < |jobs| && !Finished(jobs[j]) && !stage.Settling? && !stage.Done?
    ensures Tables(Moved(jobs, j, stage), waiters)
  {
    var jobs' := Moved(jobs, j, stage);
    forall w | 0 <= w < |waiters| ensures Balanced(jobs', waiters[w], w) {
      assert Balanced(jobs, waiters[w], w);
    }
    forall w | 0 <= w < |waiters| && waiters[w].place.Attached? ensures Listed(jobs', waiters[w], w) {
      assert Listed(jobs, waiters[w], w);
    }
    forall i | 0 <= i < |jobs'| ensures QueueOk(jobs'[i], waiters, i) && jobs'[i].starter == jobs[i].starter {
      assert QueueOk(jobs[i], waiters, i);
    }
  }

  // Queues and stages change, entries and the set of unfinished computations do not.
  lemma MovedMatches(cells: seq<Cell<EntryRow>>, jobs: seq<Job>, jobs': seq<Job>, j: nat)
    requires Matches(cells, jobs) && Memoized(cells, jobs) && j < |jobs| && !Finished(jobs[j])
    requires |jobs'| == |jobs| && jobs' == jobs[j := jobs'[j]] && jobs'[j].entry == jobs[j].entry && !Finished(jobs'[j])
    requires jobs'[j].stage.Replying? && jobs'[j].stage != jobs[j].stage ==>
      cells[jobs[j].entry.index].row.memo == Some(jobs'[j].stage.text)
    requires jobs'[j].verdict == jobs[j].verdict || BarredAt(cells, jobs[j].entry.index)
    ensures Matches(cells, jobs') && Memoized(cells, jobs')
  {
    forall i | 0 <= i < |jobs'| && !Finished(jobs'[i]) ensures RunsJob(cells, jobs'[i].entry, i) {
      assert RunsJob(cells, jobs[i].entry, i);
    }
    forall e | 0 <= e < |cells| && Runs(cells[e]) ensures OwnedBy(jobs', e, cells[e].row.work.id) {
      assert OwnedBy(jobs, e, cells[e].row.work.id);
    }
  }

  // The entry of a finished computation is idle again.
  function Rested(cells: seq<Cell<EntryRow>>, e: nat): seq<Cell<EntryRow>>
    requires e < |cells|
  {
    cells[e := cells[e].(row := cells[e].row.(work := Idle))]
  }

  lemma FinishMatches(a: seq<Cell<EntryRow>>, b: seq<Cell<EntryRow>>, jobs: seq<Job>, j: nat, reply: Reply,
                      deliver: bool)
    requires Matches(a, jobs) && Memoized(a, jobs) && j < |jobs| && !Finished(jobs[j]) && jobs[j].entry.index < |a|
    requires SameJobs(Rested(a, jobs[j].entry.index), b)
    ensures Matches(b, Emptied(jobs, j, Settling, reply, deliver))
            && Memoized(b, Emptied(jobs, j, Settling, reply, deliver))
  {
    var jobs', rested := Emptied(jobs, j, Settling, reply, deliver), Rested(a, jobs[j].entry.index);
    forall i | 0 <= i < |jobs'| && !Finished(jobs'[i]) ensures RunsJob(rested, jobs'[i].entry, i) {
      assert RunsJob(a, jobs[i].entry, i) && RunsJob(a, jobs[j].entry, j);
    }
    forall e | 0 <= e < |rested| && Runs(rested[e]) ensures OwnedBy(jobs', e, rested[e].row.work.id) {
      assert OwnedBy(jobs, e, a[e].row.work.id);
      assert RunsJob(a, jobs[j].entry, j);
    }
    forall i | 0 <= i < |jobs'| && jobs'[i].stage.Replying?
      ensures jobs'[i].entry.index < |rested| && rested[jobs'[i].entry.index].row.memo == Some(jobs'[i].stage.text)
    {
      assert jobs'[i] == jobs[i];
    }
    OtherSectionsKeep(rested, b, jobs');
  }

  // An answer reaches its client; a joiner's lease goes back with it.
  function AnsweredNow(waiter: Waiter, cancelled: bool): Waiter
    requires waiter.place.Detached?
  {
    waiter.(place := Final(waiter.place.reply, cancelled || !waiter.place.deliver), cancelled := cancelled,
            answers := waiter.answers + 1, leaseReturns := waiter.leaseReturns + Count(waiter.role.Joiner?))
  }

  lemma AnsweredOk(jobs: seq<Job>, waiters: seq<Waiter>, w: nat, cancelled: bool)
    requires Tables(jobs, waiters) && w < |waiters| && waiters[w].place.Detached?
    ensures Tables(jobs, waiters[w := AnsweredNow(waiters[w], cancelled)])
  {
    var waiters' := waiters[w := AnsweredNow(waiters[w], cancelled)];
    forall v | 0 <= v < |waiters'| ensures Balanced(jobs, waiters'[v], v) {
      assert Balanced(jobs, waiters[v], v);
    }
    forall v | 0 <= v < |waiters'| && waiters'[v].place.Attached? ensures Listed(jobs, waiters'[v], v) {
      assert Listed(jobs, waiters[v], v);
    }
    forall i | 0 <= i < |jobs| ensures QueueOk(jobs[i], waiters', i) {
      assert QueueOk(jobs[i], waiters, i);
    }
  }

  // The lease of the call that started computation j goes back.
  lemma ReturnedOk(jobs: seq<Job>, waiters: seq<Waiter>, j: nat)
    requires Tables(jobs, waiters) && j < |jobs| && jobs[j].stage.Settling?
    ensures jobs[j].starter < |waiters|
    ensures var s := jobs[j].starter;
            Tables(Moved(jobs, j, Done), waiters[s := waiters[s].(leaseReturns := waiters[s].leaseReturns + 1)])
  {
    var s := jobs[j].starter;
    var jobs', waiters' := Moved(jobs, j, Done), waiters[s := waiters[s].(leaseReturns := waiters[s].leaseReturns + 1)];
    forall v | 0 <= v < |waiters'| ensures Balanced(jobs', waiters'[v], v) {
      assert Balanced(jobs, waiters[v], v) && Balanced(jobs, waiters[s], s);
    }
    forall v | 0 <= v < |waiters'| && waiters'[v].place.Attached? ensures Listed(jobs', waiters'[v], v) {
      assert Listed(jobs, waiters[v], v);
    }
    forall i | 0 <= i < |jobs'| ensures QueueOk(jobs'[i], waiters', i) && jobs'[i].starter == jobs[i].starter {
      assert QueueOk(jobs[i], waiters, i);
    }
  }

  lemma DoneMatches(cells: seq<Cell<EntryRow>>, jobs: seq<Job>, j: nat)
    requires Matches(cells, jobs) && Memoized(cells, jobs) && j < |jobs| && jobs[j].stage.Settling?
    ensures Matches(cells, Moved(jobs, j, Done)) && Memoized(cells, Moved(jobs, j, Done))
  {
    var jobs' := Moved(jobs, j, Done);
    forall i | 0 <= i < |jobs'| && !Finished(jobs'[i]) ensures RunsJob(cells, jobs'[i].entry, i) {
      assert RunsJob(cells, jobs[i].entry, i);
    }
    forall e | 0 <= e < |cells| && Runs(cells[e]) ensures OwnedBy(jobs', e, cells[e].row.work.id) {
      assert OwnedBy(jobs, e, cells[e].row.work.id);
    }
  }

  // ---------------------------------------------------------------- the lineage of a finished computation

  // Whether the entry is buried before or after its computation ends makes no difference.
  lemma BuryEndCommute(it: Item, k: nat)
    requires k < |it.chain| && it.row.pins > 0
    ensures Buried(Ended(it, k), k) == Ended(Buried(it, k), k)
  {
    assert Buried(Ended(it, k), k).chain == Ended(Buried(it, k), k).chain;
  }

  // Burying a second time changes nothing, so no flag is needed to remember the first.
  lemma BuriedTwice(it: Item, k: nat)
    requires k < |it.chain|
    ensures Buried(Buried(it, k), k) == Buried(it, k)
  {
    assert it.chain[k := it.chain[k]] == it.chain;
  }

  // A refused start leaves no trace.
  lemma StartUndone(it: Item, k: nat, id: nat)
    requires k < |it.chain| && it.chain[k].work.Idle?
    ensures Ended(Started(it, k, id), k) == it
  {
    assert Ended(Started(it, k, id), k).chain == it.chain;
  }

  // What removeLineageLocked makes of the buried lineage at position p.
  function Retired(items: seq<Item>, p: nat, k: nat): seq<Item>
    requires p < |items| && k < |items[p].chain| && items[p].row.pins > 0
  {
    var it := Buried(Ended(items[p], k), k);
    if it.row.pins != 0 then items[p := Rolled(it)] else items[..p] + items[p + 1..]
  }

  lemma KeptRetired(items: seq<Item>, p: nat, k: nat)
    requires p < |items| && k < |items[p].chain| && items[p].row.pins > 0
    ensures Kept(items, Retired(items, p, k))
  {
    var it := Buried(Ended(items[p], k), k);
    if it.row.pins != 0 {
      RetiredTame(items[p], k);
      KeptUpdate(items, p, Rolled(it));
    } else {
      KeptRest(items, p);
    }
  }

  lemma RetiredTame(it: Item, k: nat)
    requires k < |it.chain| && it.row.pins > 0 && Buried(Ended(it, k), k).row.pins != 0
    ensures Tame(it, Rolled(Buried(Ended(it, k), k)))
  {
  }

  // A valid partial result ends its computation and leaves the lineage in phase.
  lemma KeptEnded(items: seq<Item>, p: nat, k: nat)
    requires p < |items| && k < |items[p].chain| && items[p].row.pins > 0 && InPhase(items[p].row)
    ensures Kept(items, items[p := Ended(items[p], k)])
  {
    KeptUpdate(items, p, Ended(items[p], k));
  }

  // ---------------------------------------------------------------- thrift

  // A stage that carries a step on carries one that keeps the credit of its lineage.
  predicate ThriftyStage(stage: Stage) {
    match stage
    case Previewing(_, use) => Frugal(use)
    case Rendering(_, use, _) => Frugal(use)
    case Committing(step, _) => Frugal(step.use)
    case _ => true
  }

  ghost predicate Thrifty(jobs: seq<Job>) {
    forall j :: 0 <= j < |jobs| ==> ThriftyStage(jobs[j].stage)
  }

  // ---------------------------------------------------------------- getting to rest

  // How many sections a computation can still be away from its end.
  function StageRank(stage: Stage): nat {
    match stage
    case Running => 6
    case Previewing(_, _) => 5
    case Rendering(_, _, _) => 4
    case Committing(_, _) => 3
    case Expiring(_) => 3
    case Discarding => 2
    case Ending(_) => 2
    case Replying(_) => 2
    case Settling => 1
    case Done => 0
  }

  function PlaceRank(place: Place): nat {
    match place
    case Attached => 2
    case Detached(_, _) => 1
    case Delivered(_) => 0
    case ClosedSilently => 0
  }

  function JobsLeft(jobs: seq<Job>): nat {
    if jobs == [] then 0 else JobsLeft(jobs[..|jobs| - 1]) + StageRank(jobs[|jobs| - 1].stage)
  }

  function WaitersLeft(waiters: seq<Waiter>): nat {
    if waiters == [] then 0 else WaitersLeft(waiters[..|waiters| - 1]) + PlaceRank(waiters[|waiters| - 1].place)
  }

  // An upper bound on the sections that are still to come if no new call arrives.
  function Left(jobs: seq<Job>, waiters: seq<Waiter>): nat { JobsLeft(jobs) + WaitersLeft(waiters) }

  lemma {:induction false} JobsLeftUpdate(jobs: seq<Job>, j: nat, job: Job)
    requires j < |jobs|
    ensures JobsLeft(jobs[j := job]) + StageRank(jobs[j].stage) == JobsLeft(jobs) + StageRank(job.stage)
  {
    var jobs' := jobs[j := job];
    if j < |jobs| - 1 {
      JobsLeftUpdate(jobs[..|jobs| - 1], j, job);
      assert jobs'[..|jobs'| - 1] == jobs[..|jobs| - 1][j := job];
    } else {
      assert jobs'[..|jobs'| - 1] == jobs[..|jobs| - 1];
    }
  }

  lemma {:induction false} WaitersLeftUpdate(waiters: seq<Waiter>, w: nat, waiter: Waiter)
    requires w < |waiters|
    ensures WaitersLeft(waiters[w := waiter]) + PlaceRank(waiters[w].place)
            == WaitersLeft(waiters) + PlaceRank(waiter.place)
  {
    var waiters' := waiters[w := waiter];
    if w < |waiters| - 1 {
      WaitersLeftUpdate(waiters[..|waiters| - 1], w, waiter);
      assert waiters'[..|waiters'| - 1] == waiters[..|waiters| - 1][w := waiter];
    } else {
      assert waiters'[..|waiters'| - 1] == waiters[..|waiters| - 1];
    }
  }

  lemma {:induction false} ReleaseLeaves(waiters: seq<Waiter>, j: nat, reply: Reply, deliver: bool)
    ensures WaitersLeft(Released(waiters, j, reply, deliver)) <= WaitersLeft(waiters)
    decreases |waiters|
  {
    if waiters != [] {
      var front := waiters[..|waiters| - 1];
      ReleaseLeaves(front, j, reply, deliver);
      assert Released(waiters, j, reply, deliver)[..|waiters| - 1] == Released(front, j, reply, deliver);
    }
  }

  // Every section of a computation but its start, every delivery and every departure of a call
  // brings the tables closer to rest.
  lemma MoveLowers(jobs: seq<Job>, waiters: seq<Waiter>, j: nat, stage: Stage)
    requires j < |jobs| && StageRank(stage) < StageRank(jobs[j].stage)
    ensures Left(Moved(jobs, j, stage), waiters) < Left(jobs, waiters)
  {
    JobsLeftUpdate(jobs, j, jobs[j].(stage := stage));
  }

  lemma FinishLowers(jobs: seq<Job>, waiters: seq<Waiter>, j: nat, reply: Reply, deliver: bool)
    requires j < |jobs| && !Finished(jobs[j])
    ensures Left(Emptied(jobs, j, Settling, reply, deliver), Released(waiters, j, reply, deliver)) < Left(jobs, waiters)
  {
    JobsLeftUpdate(jobs, j, Emptied(jobs, j, Settling, reply, deliver)[j]);
    ReleaseLeaves(waiters, j, reply, deliver);
  }

  lemma DeliveryLowers(jobs: seq<Job>, waiters: seq<Waiter>, w: nat, cancelled: bool)
    requires w < |waiters| && waiters[w].place.Detached?
    ensures Left(jobs, waiters[w := AnsweredNow(waiters[w], cancelled)]) < Left(jobs, waiters)
  {
    WaitersLeftUpdate(waiters, w, AnsweredNow(waiters[w], cancelled));
  }

  lemma LeaveLowers(jobs: seq<Job>, waiters: seq<Waiter>, j: nat, w: nat)
    requires j < |jobs| && w < |waiters| && waiters[w].place.Attached?
    ensures Left(Leave(jobs, j, w), waiters[w := Closed(waiters[w])]) < Left(jobs, waiters)
  {
    JobsLeftUpdate(jobs, j, Leave(jobs, j, w)[j]);
    WaitersLeftUpdate(waiters, w, Closed(waiters[w]));
  }

  lemma ReturnLowers(jobs: seq<Job>, waiters: seq<Waiter>, j: nat, s: nat, waiter: Waiter)
    requires j < |jobs| && jobs[j].stage.Settling? && s < |waiters| && waiter.place == waiters[s].place
    ensures Left(Moved(jobs, j, Done), waiters[s := waiter]) < Left(jobs, waiters)
  {
    JobsLeftUpdate(jobs, j, jobs[j].(stage := Done));
    WaitersLeftUpdate(waiters, s, waiter);
  }

  // And some such section can always be taken on behalf of a call that has no answer yet: its
  // answer is on its way, or its computation is under way.
  lemma AlwaysMoving(jobs: seq<Job>, waiters: seq<Waiter>, w: nat)
    requires Tables(jobs, waiters) && w < |waiters| && !Answered(waiters[w])
    ensures waiters[w].place.Detached?
         || (!waiters[w].role.Alone? && waiters[w].role.job < |jobs| && !Finished(jobs[waiters[w].role.job]))
  {
    AttachedIsUnfinished(jobs, waiters, w);
  }

  lemma {:induction false} NoJobLeft(jobs: seq<Job>, j: nat)
    requires JobsLeft(jobs) == 0 && j < |jobs|
    ensures jobs[j].stage.Done?
  {
    if j < |jobs| - 1 { NoJobLeft(jobs[..|jobs| - 1], j); }
  }

  lemma {:induction false} NoWaiterLeft(waiters: seq<Waiter>, w: nat)
    requires WaitersLeft(waiters) == 0 && w < |waiters|
    ensures !waiters[w].place.Detached?
  {
    if w < |waiters| - 1 { NoWaiterLeft(waiters[..|waiters| - 1], w); }
  }

  // When nothing is left, every call has had its one answer and every lease went back once.
  lemma AtRest(jobs: seq<Job>, waiters: seq<Waiter>)
    requires Tables(jobs, waiters) && Left(jobs, waiters) == 0
    ensures forall j :: 0 <= j < |jobs| ==> jobs[j].stage.Done?
    ensures forall w :: 0 <= w < |waiters| ==>
      Answered(waiters[w]) && waiters[w].answers == 1 && waiters[w].leaseReturns == 1
  {
    forall j | 0 <= j < |jobs| ensures jobs[j].stage.Done? {
      NoJobLeft(jobs, j);
    }
    forall w | 0 <= w < |waiters| ensures !waiters[w].place.Detached? {
      NoWaiterLeft(waiters, w);
    }
    EachCallAnsweredOnce(jobs, waiters);
  }

  // And every call was told what its computation came to: a call that was not cancelled got
  // exactly that reply, unless there was nothing to deliver.
  lemma AnswersAtRest(jobs: seq<Job>, waiters: seq<Waiter>, w: nat)
    requires Tables(jobs, waiters) && Left(jobs, waiters) == 0 && w < |waiters|
    ensures waiters[w].cancelled ==> waiters[w].place == ClosedSilently
    ensures waiters[w].role.Alone? && !waiters[w].cancelled ==> waiters[w].place.Delivered?
    ensures !waiters[w].role.Alone? && !waiters[w].cancelled ==>
      var j := waiters[w].role.job;
      && j < |jobs| && jobs[j].verdict.Some?
      && var verdict := jobs[j].verdict.value;
         waiters[w].place == if verdict.deliver then Delivered(verdict.reply) else ClosedSilently
  {
    AtRest(jobs, waiters);
    assert Told(jobs, waiters[w]);
  }
}
