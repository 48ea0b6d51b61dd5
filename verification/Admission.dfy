// Admission of requests: a bounded number run, a bounded number wait in order, and every slot is
// given back once. Each method of the coordinator is one section under its lock.
module Admission {
  datatype State = Queued | Running | Cancelled | TimeoutResponseCommitted | Lingering | Returned

  // A request as the coordinator keeps it. `waiting` says that a call of Start is blocked until
  // `ready` is closed; `releaseDue` that the lease was returned and its slot is still to be given
  // back by the returning worker.
  datatype Request = Request(
    idKey: string, state: State, contextCancelled: bool, readyClosed: bool, hasLease: bool, releaseDue: bool,
    startCalled: bool, waiting: bool, timerArmed: bool, hasResponse: bool)

  datatype AdmitOutcome = Admitted(request: nat, runs: bool) | ImmediateBudgetExceeded

  datatype StartOutcome = StartRun | StartQueueTimeout | StartCancelled | MustWait

  predicate HoldsSlot(state: State) {
    state == Running || state == Lingering
  }

  predicate Live(state: State) {
    state == Queued || HoldsSlot(state)
  }

  // A request's life never goes back, and it leaves the slot-holding states only once.
  predicate Follows(before: State, after: State) {
    before == after ||
    match before
    case Queued => true
    case Running => after != Queued && after != TimeoutResponseCommitted
    case Lingering => after == Returned
    case _ => false
  }

  // What the fields of one request say together.
  predicate Sound(r: Request) {
    && (r.timerArmed <==> r.state == Queued)
    && (r.state == Queued ==> !r.readyClosed && !r.contextCancelled)
    && (r.waiting ==> r.startCalled && !r.hasLease && (r.readyClosed <==> r.state != Queued))
    && (r.startCalled && r.state == Queued ==> r.waiting)
    && (r.hasLease ==> r.startCalled && !r.waiting && (HoldsSlot(r.state) || r.state == Returned))
    && (r.startCalled && !r.waiting && r.state == Running ==> r.hasLease)
    && (r.state == Lingering || r.state == Returned ==> r.hasLease)
    && (r.releaseDue ==> r.hasLease && HoldsSlot(r.state))
    && (r.hasResponse <==> r.state == TimeoutResponseCommitted && (!r.startCalled || r.waiting))
  }

  // ---- The whole coordinator as a value ----

  // How many requests hold a slot.
  function Holding(all: seq<Request>): nat {
    if all == [] then 0 else (if HoldsSlot(all[0].state) then 1 else 0) + Holding(all[1..])
  }

  predicate Ascending(queue: seq<nat>) {
    forall j, k :: 0 <= j < k < |queue| ==> queue[j] < queue[k]
  }

  // The queue holds the waiting requests in order of admission.
  predicate QueueOk(all: seq<Request>, queue: seq<nat>) {
    && Ascending(queue)
    && (forall k :: 0 <= k < |queue| ==> queue[k] < |all| && all[queue[k]].state == Queued)
    && (forall r :: 0 <= r < |all| && all[r].state == Queued ==> r in queue)
  }

  // The index knows exactly the live requests.
  predicate IndexOk(all: seq<Request>, requests: map<string, nat>) {
    && (forall key <- requests ::
          requests[key] < |all| && all[requests[key]].idKey == key && Live(all[requests[key]].state))
    && (forall r :: 0 <= r < |all| && Live(all[r].state) ==> all[r].idKey in requests && requests[all[r].idKey] == r)
  }

  predicate AllSound(all: seq<Request>) {
    forall r :: 0 <= r < |all| ==> Sound(all[r])
  }

  // The active count is the number of slot holders; nobody waits beside a free slot.
  predicate Conserves(all: seq<Request>, active: nat, queue: seq<nat>, maxConcurrent: nat, queueMax: nat) {
    active == Holding(all) <= maxConcurrent && |queue| <= queueMax && (queue != [] ==> active == maxConcurrent)
  }

  lemma {:induction false} HoldingUpdate(all: seq<Request>, r: nat, row: Request)
    requires r < |all|
    ensures Holding(all[r := row]) ==
            Holding(all) - (if HoldsSlot(all[r].state) then 1 else 0) + (if HoldsSlot(row.state) then 1 else 0)
  {
    if r > 0 {
      assert all[r := row][1..] == all[1..][r - 1 := row];
      HoldingUpdate(all[1..], r - 1, row);
    } else {
      assert all[r := row][1..] == all[1..];
    }
  }

  lemma {:induction false} HoldingAppend(all: seq<Request>, row: Request)
    ensures Holding(all + [row]) == Holding(all) + (if HoldsSlot(row.state) then 1 else 0)
  {
    if all != [] {
      assert (all + [row])[1..] == all[1..] + [row];
      HoldingAppend(all[1..], row);
    }
  }

  lemma {:induction false} HolderCounts(all: seq<Request>, r: nat)
    requires r < |all| && HoldsSlot(all[r].state)
    ensures Holding(all) > 0
  {
    if r > 0 {
      HolderCounts(all[1..], r - 1);
    }
  }

  // A queue without one of its members.
  function Without(queue: seq<nat>, r: nat): (rest: seq<nat>)
    ensures |rest| <= |queue|
    ensures forall x :: x in rest <==> x in queue && x != r
  {
    if queue == [] then [] else (if queue[0] == r then [] else [queue[0]]) + Without(queue[1..], r)
  }

  lemma {:induction false} WithoutAscending(queue: seq<nat>, r: nat)
    requires Ascending(queue)
    ensures Ascending(Without(queue, r))
    ensures r in queue ==> |Without(queue, r)| == |queue| - 1
  {
    if queue != [] {
      var rest := Without(queue[1..], r);
      WithoutAscending(queue[1..], r);
      if queue[0] == r {
        NotLater(queue);
      } else {
        forall k | 0 <= k < |rest| ensures queue[0] < rest[k] {
          assert rest[k] in queue[1..];
        }
      }
    }
  }

  // The head of a queue is before the rest.
  lemma TailAscends(queue: seq<nat>)
    requires Ascending(queue) && queue != []
    ensures Ascending(queue[1..])
    ensures forall k :: 0 <= k < |queue[1..]| ==> queue[0] < queue[1..][k]
    ensures forall r :: r in queue ==> r == queue[0] || r in queue[1..]
    ensures forall r :: r < queue[0] ==> r !in queue
  {
  }

  lemma NotLater(queue: seq<nat>)
    requires Ascending(queue) && queue != []
    ensures queue[0] !in queue[1..]
    ensures Without(queue[1..], queue[0]) == queue[1..]
  {
    WithoutNobody(queue[1..], queue[0]);
  }

  lemma {:induction false} WithoutNobody(queue: seq<nat>, r: nat)
    requires r !in queue
    ensures Without(queue, r) == queue
  {
    if queue != [] {
      WithoutNobody(queue[1..], r);
      assert queue == [queue[0]] + queue[1..];
    }
  }

  // ---- One request changes ----

  lemma RewrittenSound(all: seq<Request>, r: nat, row: Request)
    requires AllSound(all) && r < |all| && Sound(row)
    ensures AllSound(all[r := row])
  {
    hide Sound;
  }

  // The index stays right while a request is live before and after, or neither.
  lemma RewrittenIndex(all: seq<Request>, requests: map<string, nat>, r: nat, row: Request)
    requires IndexOk(all, requests) && r < |all| && row.idKey == all[r].idKey
    requires Live(all[r].state) <==> Live(row.state)
    ensures IndexOk(all[r := row], requests)
  {
    hide Live;
    assert forall x :: 0 <= x < |all| && x != r ==> all[r := row][x] == all[x];
  }

  lemma LeavesIndex(all: seq<Request>, requests: map<string, nat>, r: nat, row: Request)
    requires IndexOk(all, requests) && r < |all| && row.idKey == all[r].idKey
    requires Live(all[r].state) && !Live(row.state)
    ensures IndexOk(all[r := row], requests - {row.idKey})
  {
    hide Live;
    assert forall x :: 0 <= x < |all| && x != r ==> all[r := row][x] == all[x];
  }

  // A live request leaves for good: out of the queue, out of the index.
  lemma Leaves(all: seq<Request>, queue: seq<nat>, requests: map<string, nat>, r: nat, row: Request)
    requires QueueOk(all, queue) && IndexOk(all, requests) && AllSound(all)
    requires r < |all| && Live(all[r].state) && !Live(row.state) && row.idKey == all[r].idKey && Sound(row)
    ensures QueueOk(all[r := row], Without(queue, r)) && IndexOk(all[r := row], requests - {row.idKey})
            && AllSound(all[r := row])
    ensures all[r].state == Queued ==> |Without(queue, r)| == |queue| - 1
    ensures all[r].state != Queued ==> Without(queue, r) == queue
  {
    RewrittenSound(all, r, row);
    LeavesIndex(all, requests, r, row);
    hide Sound, IndexOk;
    WithoutAscending(queue, r);
    if all[r].state != Queued {
      WithoutNobody(queue, r);
    }
    var after := all[r := row];
    assert forall x :: 0 <= x < |all| && x != r ==> after[x] == all[x];
    forall k | 0 <= k < |Without(queue, r)| ensures Without(queue, r)[k] < |after|
      && after[Without(queue, r)[k]].state == Queued {
      assert Without(queue, r)[k] in queue;
    }
  }

  // A live request stays live and where it is.
  lemma Stays(all: seq<Request>, queue: seq<nat>, requests: map<string, nat>, r: nat, row: Request)
    requires QueueOk(all, queue) && IndexOk(all, requests) && AllSound(all)
    requires r < |all| && row.idKey == all[r].idKey && Sound(row)
    requires Live(all[r].state) <==> Live(row.state)
    requires all[r].state == Queued <==> row.state == Queued
    ensures QueueOk(all[r := row], queue) && IndexOk(all[r := row], requests) && AllSound(all[r := row])
  {
    RewrittenSound(all, r, row);
    RewrittenIndex(all, requests, r, row);
    hide Sound, IndexOk;
    assert forall x :: 0 <= x < |all| && x != r ==> all[r := row][x] == all[x];
  }

  // The head of the queue starts to run.
  lemma HeadRuns(all: seq<Request>, queue: seq<nat>, requests: map<string, nat>, row: Request)
    requires QueueOk(all, queue) && IndexOk(all, requests) && AllSound(all) && queue != []
    requires row.state == Running && row.idKey == all[queue[0]].idKey && Sound(row)
    ensures
      var after := all[queue[0] := row];
      && QueueOk(after, queue[1..]) && IndexOk(after, requests) && AllSound(after)
      && (forall s :: 0 <= s < queue[0] ==> after[s].state != Queued)
  {
    var after := all[queue[0] := row];
    RewrittenSound(all, queue[0], row);
    RewrittenIndex(all, requests, queue[0], row);
    hide Sound, IndexOk;
    assert forall x :: 0 <= x < |all| && x != queue[0] ==> after[x] == all[x];
    TailAscends(queue);
    hide Ascending;
    forall k | 0 <= k < |queue[1..]| ensures queue[1..][k] < |after| && after[queue[1..][k]].state == Queued {
      assert queue[1..][k] == queue[k + 1];
    }
    forall r | 0 <= r < |after| && after[r].state == Queued ensures r in queue[1..] {
      assert r in queue && r != queue[0];
    }
    forall s | 0 <= s < queue[0] ensures after[s].state != Queued {
      assert s !in queue;
    }
  }

  lemma Joins(all: seq<Request>, queue: seq<nat>, requests: map<string, nat>, row: Request)
    requires QueueOk(all, queue) && IndexOk(all, requests) && AllSound(all)
    requires Sound(row) && Live(row.state) && row.idKey !in requests
    ensures QueueOk(all + [row], if row.state == Queued then queue + [|all|] else queue)
    ensures IndexOk(all + [row], requests[row.idKey := |all|]) && AllSound(all + [row])
  {
    var after := all + [row];
    assert after[|all|] == row;
    JoinsIndex(all, requests, row);
    if row.state == Queued {
      assert (queue + [|all|])[|queue|] == |all|;
      forall r | 0 <= r < |after| && after[r].state == Queued ensures r in queue + [|all|] {
        if r < |all| {
          assert r in queue;
        }
      }
    }
  }

  lemma JoinsIndex(all: seq<Request>, requests: map<string, nat>, row: Request)
    requires IndexOk(all, requests) && Live(row.state) && row.idKey !in requests
    ensures IndexOk(all + [row], requests[row.idKey := |all|])
  {
    hide Live;
    assert (all + [row])[|all|] == row;
  }

  // ---- Over whole runs ----

  // Every request only moves forward, and a request is let in only when nobody before it waits.
  predicate Progress(before: seq<Request>, after: seq<Request>) {
    && |before| <= |after|
    && (forall r :: 0 <= r < |before| ==>
          before[r].idKey == after[r].idKey && Follows(before[r].state, after[r].state) &&
          (before[r].startCalled ==> after[r].startCalled) && (before[r].hasLease ==> after[r].hasLease))
    && (forall r, s :: 0 <= s < r < |before| && before[r].state == Queued && after[r].state == Running ==>
          after[s].state != Queued)
  }

  lemma ProgressEnds(all: seq<Request>, r: nat, row: Request)
    requires r < |all| && row.idKey == all[r].idKey && Follows(all[r].state, row.state) && !Live(row.state)
    requires (all[r].startCalled ==> row.startCalled) && (all[r].hasLease ==> row.hasLease)
    ensures Progress(all, all[r := row])
  {
  }

  lemma FollowsOn(a: State, b: State, c: State)
    requires Follows(a, b) && Follows(b, c)
    ensures Follows(a, c)
    ensures !Live(a) ==> a == b
  {
  }

  lemma ProgressThen(all: seq<Request>, r: nat, row: Request, after: seq<Request>)
    requires r < |all| && Progress(all, all[r := row]) && !Live(row.state) && Progress(all[r := row], after)
    ensures Progress(all, after)
  {
    hide Follows;
    var middle := all[r := row];
    forall x | 0 <= x < |all| ensures Follows(all[x].state, after[x].state) {
      FollowsOn(all[x].state, middle[x].state, after[x].state);
    }
    FollowsOn(row.state, after[r].state, after[r].state);
  }

  lemma QueueHead(all: seq<Request>, queue: seq<nat>, r: nat)
    requires QueueOk(all, queue) && r < |all|
    ensures queue != [] ==> queue[0] < |all| && (HoldsSlot(all[r].state) ==> queue[0] != r)
  {
  }

  // The moments of a run at which a request gives its slot back.
  function GivenBack(run: seq<State>): nat {
    if |run| < 2 then 0
    else (if HoldsSlot(run[0]) && !HoldsSlot(run[1]) then 1 else 0) + GivenBack(run[1..])
  }

  predicate Lives(run: seq<State>) {
    forall k :: 0 <= k < |run| - 1 ==> Follows(run[k], run[k + 1])
  }

  // In every run a request gives its slot back at most once, and exactly once if it held one
  // and holds none in the end.
  lemma {:induction false} SlotGivenBackOnce(run: seq<State>)
    requires Lives(run) && run != []
    ensures GivenBack(run) <= 1
    ensures !Live(run[0]) ==> GivenBack(run) == 0 && run[|run| - 1] == run[0]
    ensures HoldsSlot(run[0]) ==> GivenBack(run) == (if HoldsSlot(run[|run| - 1]) then 0 else 1)
  {
    if |run| >= 2 {
      var rest := run[1..];
      forall k | 0 <= k < |rest| - 1 ensures Follows(rest[k], rest[k + 1]) {
        assert Follows(run[k + 1], run[k + 2]);
      }
      assert Follows(run[0], run[1]);
      SlotGivenBackOnce(rest);
    }
  }

  // ---- The coordinator ----

  class Coordinator {
    const maxConcurrent: nat
    const queueMax: nat
    var active: nat
    var queue: seq<nat>
    var requests: map<string, nat>
    // Every request ever admitted, in order of admission.
    var all: seq<Request>

    constructor (maxConcurrent: nat, queueMax: nat)
      requires maxConcurrent > 0
      ensures Valid() && all == [] && this.maxConcurrent == maxConcurrent && this.queueMax == queueMax
    {
      this.maxConcurrent, this.queueMax := maxConcurrent, queueMax;
      active, queue, requests, all := 0, [], map[], [];
    }

    predicate Valid()
      reads this
    {
      && maxConcurrent > 0
      && AllSound(all) && QueueOk(all, queue) && IndexOk(all, requests)
      && Conserves(all, active, queue, maxConcurrent, queueMax)
    }

    // Reserves a slot, joins the queue, or is turned away.
    method Admit(key: string) returns (outcome: AdmitOutcome)
      requires Valid() && key != "" && key !in requests
      modifies this
      ensures Valid() && Progress(old(all), all)
      ensures
        var runs := old(active) < maxConcurrent && old(queue) == [];
        if !runs && |old(queue)| >= queueMax then outcome == ImmediateBudgetExceeded && unchanged(this)
        else
          && outcome == Admitted(|old(all)|, runs)
          && all == old(all) + [Request(key, if runs then Running else Queued,
                                        false, false, false, false, false, false, !runs, false)]
          && queue == (if runs then [] else old(queue) + [|old(all)|])
          && requests == old(requests)[key := |old(all)|]
    {
      hide QueueOk, IndexOk, AllSound;
      var runs := active < maxConcurrent && |queue| == 0;
      if !runs && |queue| >= queueMax {
        return ImmediateBudgetExceeded;
      }
      var state := if runs then Running else Queued;
      var row := Request(key, state, false, false, false, false, false, false, state == Queued, false);
      Joins(all, queue, requests, row);
      HoldingAppend(all, row);
      if runs {
        active := active + 1;
      } else {
        queue := queue + [|all|];
      }
      requests := requests[key := |all|];
      outcome := Admitted(|all|, runs);
      all := all + [row];
    }

    // Starts an admitted request, or blocks on it while it is queued.
    method Start(r: nat) returns (outcome: StartOutcome)
      requires Valid() && r < |all| && !all[r].startCalled
      modifies this`all
      ensures Valid() && Progress(old(all), all) && all[r].startCalled
      ensures outcome == StartFor(old(all)[r].state) && all == old(all)[r := all[r]]
      ensures all[r].waiting <==> outcome == MustWait
      ensures all[r].hasLease <==> outcome == StartRun
      ensures outcome == StartQueueTimeout <==> old(all)[r].hasResponse
      ensures outcome == StartQueueTimeout ==> !all[r].hasResponse
    {
      hide QueueOk, IndexOk;
      var row := all[r].(startCalled := true);
      outcome := StartFor(row.state);
      row := if row.state == Queued then row.(waiting := true) else Started(row);
      Stays(all, queue, requests, r, row);
      HoldingUpdate(all, r, row);
      all := all[r := row];
    }

    // A blocked call of Start looks again once `ready` is closed; it never has to block twice.
    method Resume(r: nat) returns (outcome: StartOutcome)
      requires Valid() && r < |all| && all[r].waiting && all[r].readyClosed
      modifies this`all
      ensures Valid() && Progress(old(all), all)
      ensures outcome == StartFor(old(all)[r].state) != MustWait && all == old(all)[r := all[r]]
      ensures !all[r].waiting && (all[r].hasLease <==> outcome == StartRun)
      ensures outcome == StartQueueTimeout <==> old(all)[r].hasResponse
      ensures outcome == StartQueueTimeout ==> !all[r].hasResponse
    {
      hide QueueOk, IndexOk;
      var row := Started(all[r].(waiting := false));
      outcome := StartFor(row.state);
      Stays(all, queue, requests, r, row);
      HoldingUpdate(all, r, row);
      all := all[r := row];
    }

    // The worker's lease was returned for the first time: its slot is due.
    method LeaseReturned(r: nat)
      requires Valid() && r < |all| && all[r].hasLease && HoldsSlot(all[r].state) && !all[r].releaseDue
      modifies this`all
      ensures Valid() && Progress(old(all), all) && all == old(all)[r := old(all)[r].(releaseDue := true)]
    {
      hide QueueOk, IndexOk;
      var row := all[r].(releaseDue := true);
      Stays(all, queue, requests, r, row);
      HoldingUpdate(all, r, row);
      all := all[r := row];
    }

    // Lets the head of the queue in when a slot is free.
    method PromoteHead()
      requires maxConcurrent > 0 && AllSound(all) && QueueOk(all, queue) && IndexOk(all, requests)
      requires active == Holding(all) <= maxConcurrent && |queue| <= queueMax
      requires queue != [] ==> active + 1 >= maxConcurrent
      modifies this`all, this`queue, this`active
      ensures Valid() && Progress(old(all), all)
      ensures
        if old(queue) == [] || old(active) >= maxConcurrent then unchanged(this)
        else
          var head := old(queue)[0];
          && queue == old(queue)[1..] && active == old(active) + 1 && head < |old(all)|
          && all == old(all)[head := old(all)[head].(state := Running, timerArmed := false, readyClosed := true)]
    {
      hide IndexOk;
      if |queue| == 0 || active >= maxConcurrent {
        return;
      }
      var head := queue[0];
      var row := all[head].(state := Running, timerArmed := false, readyClosed := true);
      HeadRuns(all, queue, requests, row);
      HoldingUpdate(all, head, row);
      queue := queue[1..];
      active := active + 1;
      all := all[head := row];
    }

    // A live request ends without a slot of its own to give back, or gives it back here.
    method End(r: nat, row: Request)
      requires Valid() && r < |all| && Live(all[r].state) && !Live(row.state) && Sound(row)
      requires row.idKey == all[r].idKey && Follows(all[r].state, row.state)
      requires (all[r].startCalled ==> row.startCalled) && (all[r].hasLease ==> row.hasLease)
      modifies this`all, this`queue, this`active, this`requests
      ensures Valid() && Progress(old(all), all)
      ensures |all| == |old(all)| && all[r] == row && requests == old(requests) - {row.idKey}
      ensures
        var head := old(queue);
        if !HoldsSlot(old(all)[r].state) || head == [] then
          all == old(all)[r := row] && queue == Without(old(queue), r) &&
          active == old(active) - (if HoldsSlot(old(all)[r].state) then 1 else 0)
        else
          && queue == head[1..] && active == old(active) && head[0] != r && head[0] < |all|
          && all == old(all)[r := row][head[0] := old(all)[head[0]].(state := Running, timerArmed := false,
                                                                     readyClosed := true)]
    {
      hide IndexOk, QueueOk, AllSound, Holding, Progress, Sound, Follows;
      Leaves(all, queue, requests, r, row);
      HoldingUpdate(all, r, row);
      ProgressEnds(all, r, row);
      QueueHead(all, queue, r);
      var held := HoldsSlot(all[r].state);
      if held {
        HolderCounts(all, r);
        active := active - 1;
      }
      queue := Without(queue, r);
      requests := requests - {row.idKey};
      ghost var before := all;
      all := all[r := row];
      if held {
        ghost var middle := all;
        PromoteHead();
        ProgressThen(before, r, row, all);
      }
    }

    // A request that held a slot is gone: the slot went to the head of the queue, or is free.
    ghost predicate SlotPassedOn(before: seq<Request>, waiting: seq<nat>, held: nat, r: nat)
      requires r < |before| == |all|
      reads this
    {
      if waiting == [] then all == before[r := all[r]] && queue == [] && active == held - 1
      else
        && queue == waiting[1..] && active == held && waiting[0] < |before| && waiting[0] != r
        && all == before[r := all[r]][waiting[0] := before[waiting[0]].(state := Running, timerArmed := false,
              readyClosed := true)]
    }

    // The returned worker gives its slot back, and the head of the queue takes it.
    method WorkerReturned(r: nat)
      requires Valid() && r < |all| && all[r].releaseDue
      modifies this`all, this`queue, this`active, this`requests
      ensures Valid() && Progress(old(all), all) && |all| == |old(all)|
      ensures all[r] == old(all)[r].(state := Returned, contextCancelled := true, releaseDue := false)
      ensures requests == old(requests) - {old(all)[r].idKey}
      ensures SlotPassedOn(old(all), old(queue), old(active), r)
    {
      hide QueueOk, IndexOk, AllSound, Holding;
      SoundAt(all, r);
      End(r, all[r].(state := Returned, contextCancelled := true, releaseDue := false));
    }

    // A queued request goes at once; a running one that has no worker yet gives its slot back; a
    // worker at work keeps its slot and is only told not to commit.
    method Cancel(r: nat) returns (noCommit: bool)
      requires Valid() && r < |all|
      modifies this`all, this`queue, this`active, this`requests
      ensures Valid() && Progress(old(all), all)
      ensures |all| == |old(all)|
      ensures old(all)[r].state == Queued ==>
                all == old(all)[r := all[r]] && all[r].state == Cancelled && queue == Without(old(queue), r)
                  && active == old(active)
      ensures old(all)[r].state == Running && !old(all)[r].hasLease ==>
                all[r].state == Cancelled && SlotPassedOn(old(all), old(queue), old(active), r)
      ensures all[r].state == Cancelled && old(all)[r].state != Cancelled ==>
        requests == old(requests) - {old(all)[r].idKey}
      ensures noCommit <==> old(all)[r].state == Running && old(all)[r].hasLease
      ensures noCommit ==>
                all == old(all)[r := all[r]] && all[r].state == Lingering && active == old(active)
                  && queue == old(queue) &&
                requests == old(requests)
      ensures old(all)[r].state != Queued && old(all)[r].state != Running ==> unchanged(this)
    {
      hide QueueOk, IndexOk, AllSound, Holding;
      SoundAt(all, r);
      var row := all[r];
      noCommit := false;
      if row.state == Queued || (row.state == Running && !row.hasLease) {
        End(r, row.(state := Cancelled, contextCancelled := true, timerArmed := false, readyClosed := true));
      } else if row.state == Running {
        row := row.(state := Lingering, contextCancelled := true);
        Stays(all, queue, requests, r, row);
        HoldingUpdate(all, r, row);
        all := all[r := row];
        noCommit := true;
      }
    }

    // The queue timer fires: the request leaves with the right to one response.
    method QueueTimedOut(r: nat)
      requires Valid() && r < |all|
      modifies this`all, this`queue, this`active, this`requests
      ensures Valid() && Progress(old(all), all)
      ensures old(all)[r].state != Queued ==> unchanged(this)
      ensures old(all)[r].state == Queued ==>
        |all| == |old(all)| && all == old(all)[r := all[r]] && all[r].state == TimeoutResponseCommitted
          && all[r].hasResponse &&
        queue == Without(old(queue), r) && active == old(active) && requests == old(requests) - {old(all)[r].idKey}
    {
      hide QueueOk, IndexOk, AllSound, Holding;
      SoundAt(all, r);
      var row := all[r];
      if row.state == Queued {
        End(r, row.(state := TimeoutResponseCommitted, contextCancelled := true, timerArmed := false,
                    readyClosed := true,
                    hasResponse := true));
      }
    }
  }

  lemma SoundAt(all: seq<Request>, r: nat)
    requires AllSound(all) && r < |all|
    ensures Sound(all[r])
  {
  }

  function StartFor(state: State): StartOutcome {
    match state
    case Queued => MustWait
    case Running => StartRun
    case TimeoutResponseCommitted => StartQueueTimeout
    case _ => StartCancelled
  }

  // What Start leaves behind when it does not block: a lease for a running request, and a
  // timed-out one without the response it hands out.
  function Started(row: Request): Request {
    if row.state == Running then row.(hasLease := true) else row.(hasResponse := false)
  }
}
