// The limiter of scan and parse work inside admitted calls: one unit per call, a bounded number
// at work, the others waiting in order. Each method is one section under the limiter's lock.
module SubLimiter {
  import opened Wrappers
  import opened Admission
  import WorkLease

  datatype Outcome = Acquired | CancelledSub | DeadlineExceeded

  // A waiting call; its outcome, once there is one, is final and `ready` is closed with it.
  datatype Waiter = Waiter(parent: nat, outcome: Option<Outcome>)

  datatype Entry = Refused(outcome: Outcome) | Reserved | Waiting(waiter: nat)

  // Whether a waiter's context or deadline has ended at the moment of a section.
  type Ended = nat -> Option<Outcome>

  predicate Proper(ended: Ended, waiters: seq<nat>) {
    forall k :: 0 <= k < |waiters| ==> ended(waiters[k]) != Some(Acquired)
  }

  // The queue holds the waiters without an outcome, in order of arrival.
  predicate QueueOk(all: seq<Waiter>, waiters: seq<nat>) {
    && Ascending(waiters)
    && (forall k :: 0 <= k < |waiters| ==> waiters[k] < |all| && all[waiters[k]].outcome == None)
    && (forall w :: 0 <= w < |all| && all[w].outcome == None ==> w in waiters)
  }

  // Every call with a unit here is either at work or waiting once.
  predicate ParentsOk(all: seq<Waiter>, waiters: seq<nat>, parents: set<nat>, holders: set<nat>) {
    && (forall k :: 0 <= k < |waiters| ==> waiters[k] < |all| && all[waiters[k]].parent in parents - holders)
    && (forall j, k :: 0 <= j < k < |waiters| ==> all[waiters[j]].parent != all[waiters[k]].parent)
    && holders <= parents
    && |parents| == |holders| + |waiters|
  }

  predicate WaitersOk(all: seq<Waiter>, waiters: seq<nat>, parents: set<nat>, holders: set<nat>) {
    QueueOk(all, waiters) && ParentsOk(all, waiters, parents, holders)
  }

  // Once an outcome is given it stays.
  predicate Settles(before: seq<Waiter>, after: seq<Waiter>) {
    && |before| <= |after|
    && (forall w :: 0 <= w < |before| ==>
          after[w].parent == before[w].parent && (before[w].outcome.Some? ==> after[w] == before[w]))
  }

  // Nobody gets a slot while someone who came before still waits.
  predicate InOrder(before: seq<Waiter>, after: seq<Waiter>) {
    forall u, w :: 0 <= u < w < |before| <= |after| ==>
      before[w].outcome == None && after[w].outcome == Some(Acquired) ==> after[u].outcome.Some?
  }

  lemma WaitersKnown(all: seq<Waiter>, waiters: seq<nat>, parents: set<nat>, holders: set<nat>)
    requires WaitersOk(all, waiters, parents, holders)
    ensures forall k :: 0 <= k < |waiters| ==> waiters[k] < |all|
  {
  }

  // The waiter at the head leaves the queue with an outcome; it takes a slot or loses its place.
  lemma HeadLeaves(all: seq<Waiter>, waiters: seq<nat>, parents: set<nat>, holders: set<nat>, outcome: Outcome)
    requires WaitersOk(all, waiters, parents, holders) && waiters != []
    ensures waiters[0] < |all|
    ensures
      var parent := all[waiters[0]].parent;
      var after := all[waiters[0] := Waiter(parent, Some(outcome))];
      && (outcome == Acquired ==> WaitersOk(after, waiters[1..], parents, holders + {parent}))
      && (outcome != Acquired ==> WaitersOk(after, waiters[1..], parents - {parent}, holders))
      && parent in parents && parent !in holders
  {
    hide QueueOk, ParentsOk;
    HeadLeavesQueue(all, waiters, outcome);
    HeadLeavesParents(all, waiters, parents, holders, outcome);
  }

  lemma HeadLeavesQueue(all: seq<Waiter>, waiters: seq<nat>, outcome: Outcome)
    requires QueueOk(all, waiters) && waiters != []
    ensures waiters[0] < |all|
    ensures QueueOk(all[waiters[0] := Waiter(all[waiters[0]].parent, Some(outcome))], waiters[1..])
  {
    var head, rest := waiters[0], waiters[1..];
    var after := all[head := Waiter(all[head].parent, Some(outcome))];
    NotLater(waiters);
    forall w | 0 <= w < |after| && after[w].outcome == None ensures w in rest {
      assert w in waiters;
    }
  }

  lemma HeadLeavesParents(all: seq<Waiter>, waiters: seq<nat>, parents: set<nat>, holders: set<nat>, outcome: Outcome)
    requires ParentsOk(all, waiters, parents, holders) && waiters != []
    ensures waiters[0] < |all|
    ensures
      var parent := all[waiters[0]].parent;
      var after := all[waiters[0] := Waiter(parent, Some(outcome))];
      && ParentsOk(after, waiters[1..], parents, holders + {parent})
      && ParentsOk(after, waiters[1..], parents - {parent}, holders)
      && parent in parents && parent !in holders
  {
    var head, rest := waiters[0], waiters[1..];
    var after := all[head := Waiter(all[head].parent, Some(outcome))];
    assert forall k :: 0 <= k < |rest| ==> rest[k] == waiters[k + 1] && after[rest[k]].parent == all[rest[k]].parent;
  }

  lemma HeadSettles(all: seq<Waiter>, waiters: seq<nat>, parents: set<nat>, holders: set<nat>, outcome: Outcome)
    requires WaitersOk(all, waiters, parents, holders) && waiters != []
    ensures waiters[0] < |all|
    ensures
      var after := all[waiters[0] := Waiter(all[waiters[0]].parent, Some(outcome))];
      Settles(all, after) && InOrder(all, after)
  {
    var head := waiters[0];
    forall u | 0 <= u < head ensures u < |all| && all[u].outcome.Some? {
      assert all[u].outcome == None ==> u in waiters;
    }
  }

  // A waiter anywhere in the queue gives up.
  lemma WaiterLeaves(all: seq<Waiter>, waiters: seq<nat>, parents: set<nat>, holders: set<nat>, w: nat,
                     outcome: Outcome)
    requires WaitersOk(all, waiters, parents, holders) && w < |all| && all[w].outcome == None && outcome != Acquired
    ensures
      var after := all[w := Waiter(all[w].parent, Some(outcome))];
      && WaitersOk(after, Without(waiters, w), parents - {all[w].parent}, holders)
      && |Without(waiters, w)| == |waiters| - 1
      && Settles(all, after) && InOrder(all, after)
  {
    assert w in waiters;
    WithoutAscending(waiters, w);
    WaiterLeavesQueue(all, waiters, w, outcome);
    WaiterLeavesParents(all, waiters, parents, holders, w, outcome);
    hide QueueOk, ParentsOk;
  }

  lemma WaiterLeavesQueue(all: seq<Waiter>, waiters: seq<nat>, w: nat, outcome: Outcome)
    requires QueueOk(all, waiters) && w < |all|
    ensures QueueOk(all[w := Waiter(all[w].parent, Some(outcome))], Without(waiters, w))
  {
    WithoutAscending(waiters, w);
    hide Ascending;
    var rest, after := Without(waiters, w), all[w := Waiter(all[w].parent, Some(outcome))];
    forall k | 0 <= k < |rest| ensures rest[k] < |after| && after[rest[k]].outcome == None {
      assert rest[k] in waiters;
    }
  }

  lemma WaiterLeavesParents(all: seq<Waiter>, waiters: seq<nat>, parents: set<nat>, holders: set<nat>, w: nat,
                            outcome: Outcome)
    requires ParentsOk(all, waiters, parents, holders) && Ascending(waiters) && w < |all| && w in waiters
    ensures ParentsOk(all[w := Waiter(all[w].parent, Some(outcome))], Without(waiters, w), parents - {all[w].parent},
                      holders)
  {
    hide ParentsOk;
    var rest, after := Without(waiters, w), all[w := Waiter(all[w].parent, Some(outcome))];
    WithoutAscending(waiters, w);
    ParentKnown(all, waiters, parents, holders, w);
    forall k | 0 <= k < |rest|
      ensures rest[k] < |after| && after[rest[k]].parent in parents - {all[w].parent} - holders
    {
      assert rest[k] in waiters;
      ParentKnown(all, waiters, parents, holders, rest[k]);
      ParentsApart(all, waiters, parents, holders, rest[k], w);
    }
    forall j, k | 0 <= j < k < |rest| ensures after[rest[j]].parent != after[rest[k]].parent {
      assert rest[j] in waiters && rest[k] in waiters;
      assert rest[j] < rest[k];
      ParentsApart(all, waiters, parents, holders, rest[j], rest[k]);
    }
    ParentsHold(after, rest, parents - {all[w].parent}, holders);
  }

  lemma ParentsHold(all: seq<Waiter>, waiters: seq<nat>, parents: set<nat>, holders: set<nat>)
    requires forall k :: 0 <= k < |waiters| ==> waiters[k] < |all| && all[waiters[k]].parent in parents - holders
    requires forall j, k :: 0 <= j < k < |waiters| ==> all[waiters[j]].parent != all[waiters[k]].parent
    requires holders <= parents && |parents| == |holders| + |waiters|
    ensures ParentsOk(all, waiters, parents, holders)
  {
  }

  lemma ParentKnown(all: seq<Waiter>, waiters: seq<nat>, parents: set<nat>, holders: set<nat>, w: nat)
    requires ParentsOk(all, waiters, parents, holders) && w in waiters
    ensures w < |all| && all[w].parent in parents - holders
    ensures holders <= parents - {all[w].parent} && |parents - {all[w].parent}| == |holders| + |waiters| - 1
  {
    var k :| 0 <= k < |waiters| && waiters[k] == w;
    assert |parents| == |parents - {all[w].parent}| + 1;
  }

  lemma ParentsApart(all: seq<Waiter>, waiters: seq<nat>, parents: set<nat>, holders: set<nat>, u: nat, w: nat)
    requires ParentsOk(all, waiters, parents, holders) && u in waiters && w in waiters && u != w
    ensures u < |all| && w < |all| && all[u].parent != all[w].parent
  {
    var j :| 0 <= j < |waiters| && waiters[j] == u;
    var k :| 0 <= k < |waiters| && waiters[k] == w;
    assert j < k || k < j;
  }

  lemma NewParent(all: seq<Waiter>, waiters: seq<nat>, parents: set<nat>, holders: set<nat>, parent: nat)
    requires WaitersOk(all, waiters, parents, holders) && parent !in parents
    ensures WaitersOk(all, waiters, parents + {parent}, holders + {parent})
    ensures WaitersOk(all + [Waiter(parent, None)], waiters + [|all|], parents + {parent}, holders)
    ensures |holders + {parent}| == |holders| + 1
  {
    var after, longer := all + [Waiter(parent, None)], waiters + [|all|];
    assert after[|all|] == Waiter(parent, None) && longer[|waiters|] == |all|;
    assert forall k :: 0 <= k < |waiters| ==> longer[k] == waiters[k];
    forall w | 0 <= w < |after| && after[w].outcome == None ensures w in longer {
      if w < |all| {
        assert w in waiters;
      }
    }
  }

  lemma HolderLeaves(all: seq<Waiter>, waiters: seq<nat>, parents: set<nat>, holders: set<nat>, parent: nat)
    requires WaitersOk(all, waiters, parents, holders) && parent in holders
    ensures WaitersOk(all, waiters, parents - {parent}, holders - {parent})
    ensures |holders - {parent}| == |holders| - 1
  {
  }

  // The waiters after a slot was offered to the queue, whether one took it, and for which call.
  datatype Promotion = Promotion(all: seq<Waiter>, waiters: seq<nat>, granted: bool, served: set<nat>)

  // The slot goes to the first waiter that has not ended.
  function Promote(all: seq<Waiter>, waiters: seq<nat>, ended: Ended): (p: Promotion)
    requires forall k :: 0 <= k < |waiters| ==> waiters[k] < |all|
    ensures p.waiters != [] ==> p.granted
    decreases |waiters|
  {
    if waiters == [] then Promotion(all, [], false, {})
    else
      var head := waiters[0];
      if ended(head).Some? then Promote(all[head := Waiter(all[head].parent, ended(head))], waiters[1..], ended)
      else Promotion(all[head := Waiter(all[head].parent, Some(Acquired))], waiters[1..], true, {all[head].parent})
  }

  lemma NothingSettles(all: seq<Waiter>)
    ensures Settles(all, all) && InOrder(all, all)
  {
  }

  lemma {:induction false} PromoteInOrder(all: seq<Waiter>, waiters: seq<nat>, parents: set<nat>, holders: set<nat>,
                                          ended: Ended)
    requires WaitersOk(all, waiters, parents, holders) && Proper(ended, waiters)
    ensures
      var after := Promote(all, waiters, ended).all;
      Settles(all, after) && InOrder(all, after)
    decreases |waiters|
  {
    hide WaitersOk;
    if waiters != [] {
      var outcome := ended(waiters[0]);
      HeadLeaves(all, waiters, parents, holders, if outcome.Some? then outcome.value else Acquired);
      HeadSettles(all, waiters, parents, holders, if outcome.Some? then outcome.value else Acquired);
      if outcome.Some? {
        var head := waiters[0];
        PromoteInOrder(all[head := Waiter(all[head].parent, outcome)], waiters[1..], parents - {all[head].parent},
                       holders, ended);
      }
    }
  }

  class SubLimiter {
    const max: nat
    var active: nat
    var waiters: seq<nat>
    // The calls that own a unit here, at work or waiting.
    var parents: set<nat>
    // Every waiter there ever was.
    var all: seq<Waiter>
    // The calls whose unit is at work.
    ghost var holders: set<nat>

    constructor (max: nat)
      requires max > 0
      ensures Valid() && all == [] && holders == {} && this.max == max
    {
      this.max := max;
      active, waiters, parents, all, holders := 0, [], {}, [], {};
    }

    ghost predicate Valid()
      reads this
    {
      Consistent() && (waiters != [] ==> active == max)
    }

    ghost predicate Consistent()
      reads this
    {
      max > 0 && WaitersOk(all, waiters, parents, holders) && active == |holders| <= max
    }

    // Every call with a unit here is at work or waiting, never both.
    lemma OneUnitEach()
      requires Valid()
      ensures |parents| == active + |waiters|
    {
    }

    // A call asks for its unit: it is refused, if it may not start work any more or its context
    // or deadline ended, or it starts at once, or it waits. The call is asked twice, first before
    // the lock is taken: `allowed` is what it said then.
    method Enter(parent: nat, call: WorkLease.Lease, allowed: bool, terminal: Option<Outcome>) returns (entry: Entry)
      requires Valid() && terminal != Some(Acquired)
      requires allowed && terminal == None ==> parent !in parents
      modifies this
      ensures Valid() && Settles(old(all), all) && InOrder(old(all), all)
      ensures entry ==
        if !allowed then Refused(CancelledSub)
        else if terminal.Some? then Refused(terminal.value)
        else if !call.SubAcquireAllowed() then Refused(CancelledSub)
        else if old(active < max && waiters == []) then Reserved
        else Waiting(|old(all)|)
      ensures entry.Refused? ==> unchanged(this)
      ensures entry.Reserved? ==> holders == old(holders) + {parent} && waiters == [] && all == old(all)
      ensures entry.Waiting? ==>
        holders == old(holders) && waiters == old(waiters) + [|old(all)|] && all == old(all) + [Waiter(parent, None)]
    {
      hide WaitersOk;
      if !allowed {
        return Refused(CancelledSub);
      }
      if terminal.Some? {
        return Refused(terminal.value);
      }
      if !call.SubAcquireAllowed() {
        return Refused(CancelledSub);
      }
      NewParent(all, waiters, parents, holders, parent);
      parents := parents + {parent};
      if active < max && |waiters| == 0 {
        active := active + 1;
        holders := holders + {parent};
        return Reserved;
      }
      entry := Waiting(|all|);
      waiters := waiters + [|all|];
      all := all + [Waiter(parent, None)];
    }

    // A waiter's context or deadline ended while it waited; too late if it was already served.
    method TerminalizeWaiter(w: nat, outcome: Outcome)
      requires Valid() && w < |all| && outcome != Acquired
      modifies this
      ensures Valid() && Settles(old(all), all) && InOrder(old(all), all)
      ensures old(all)[w].outcome.Some? ==> unchanged(this)
      ensures old(all)[w].outcome == None ==>
        all == old(all)[w := Waiter(old(all)[w].parent, Some(outcome))] && waiters == Without(old(waiters), w) &&
        holders == old(holders) && active == old(active) && all[w].parent !in parents
    {
      hide WaitersOk;
      if all[w].outcome == None {
        WaiterLeaves(all, waiters, parents, holders, w, outcome);
        waiters := Without(waiters, w);
        parents := parents - {all[w].parent};
        all := all[w := Waiter(all[w].parent, Some(outcome))];
      }
    }

    // Gives a free slot to the first waiter that is still interested; those before it that are
    // not leave with the outcome that ended them.
    method PromoteHead(ended: Ended)
      requires Consistent() && Proper(ended, waiters)
      requires if waiters != [] then active + 1 == max else active < max
      modifies this
      ensures Valid() && Settles(old(all), all) && InOrder(old(all), all)
      ensures
        var promotion := Promote(old(all), old(waiters), ended);
        all == promotion.all && waiters == promotion.waiters &&
        active == (if promotion.granted then old(active) + 1 else old(active)) &&
        holders == old(holders) + promotion.served
      ensures parents <= old(parents)
    {
      hide WaitersOk, InOrder, Settles;
      WaitersKnown(all, waiters, parents, holders);
      PromoteInOrder(all, waiters, parents, holders, ended);
      while active < max
        invariant Consistent() && Proper(ended, waiters) && active == old(active) && holders == old(holders)
        invariant parents <= old(parents)
        invariant forall k :: 0 <= k < |waiters| ==> waiters[k] < |all|
        invariant Promote(all, waiters, ended) == Promote(old(all), old(waiters), ended)
        decreases |waiters|
      {
        if |waiters| == 0 {
          return;
        }
        var head := waiters[0];
        var outcome := ended(head);
        HeadLeaves(all, waiters, parents, holders, if outcome.Some? then outcome.value else Acquired);
        waiters := waiters[1..];
        if outcome.Some? {
          parents := parents - {all[head].parent};
          all := all[head := Waiter(all[head].parent, outcome)];
          continue;
        }
        active := active + 1;
        holders := holders + {all[head].parent};
        all := all[head := Waiter(all[head].parent, Some(Acquired))];
        return;
      }
    }

    // The unit of a call is gone and its slot went to the next waiter in order, if any.
    ghost predicate GaveBack(all0: seq<Waiter>, waiters0: seq<nat>, active0: nat, holders0: set<nat>, parent: nat,
                             ended: Ended)
      reads this
    {
      && parent !in parents && active0 > 0
      && (forall k :: 0 <= k < |waiters0| ==> waiters0[k] < |all0|)
      && var promotion := Promote(all0, waiters0, ended);
         && all == promotion.all && waiters == promotion.waiters
         && active == (if promotion.granted then active0 else active0 - 1)
         && holders == holders0 - {parent} + promotion.served
    }

    // A unit at work ends: its slot goes to the next waiter in order.
    method Release(parent: nat, ended: Ended)
      requires Valid() && parent in holders && Proper(ended, waiters)
      modifies this
      ensures Valid() && Settles(old(all), all) && InOrder(old(all), all)
      ensures GaveBack(old(all), old(waiters), old(active), old(holders), parent, ended)
    {
      hide WaitersOk, InOrder, Settles;
      WaitersKnown(all, waiters, parents, holders);
      HolderLeaves(all, waiters, parents, holders, parent);
      parents := parents - {parent};
      holders := holders - {parent};
      active := active - 1;
      PromoteHead(ended);
    }
  }

  // The right to one slot of the limiter, and the owner of what the work holds. The call it
  // belongs to is charged on its own.
  class SubLease {
    const limiter: SubLimiter
    const parent: nat
    const call: WorkLease.Lease
    var owner: Option<WorkLease.Owner>
    var noCommit: bool
    var returned: bool
    // How often the slot and the owner were given back.
    ghost var slotReleases: nat
    ghost var ownerReleases: nat

    // Until the work returns the slot is held by this call; then it was given back, once, and
    // with it the owner the lease had, if any.
    ghost predicate Valid()
      reads this, limiter
    {
      && limiter.Valid()
      && (!returned ==> parent in limiter.holders)
      && slotReleases == (if returned then 1 else 0)
      && ownerReleases <= slotReleases && (returned ==> owner == None)
    }

    constructor (limiter: SubLimiter, parent: nat, call: WorkLease.Lease)
      requires limiter.Valid() && parent in limiter.holders
      ensures Valid() && owner == None && !noCommit && !returned
      ensures this.limiter == limiter && this.parent == parent && this.call == call
    {
      this.limiter, this.parent, this.call := limiter, parent, call;
      owner, noCommit, returned, slotReleases, ownerReleases := None, false, false, 0, 0;
    }

    method Transfer(next: Option<WorkLease.Owner>) returns (result: WorkLease.Transferred)
      requires Valid()
      modifies this`owner
      ensures Valid()
      ensures result == (if next == None then WorkLease.RefusedNil else if returned then WorkLease.RefusedReturned
                         else if noCommit then WorkLease.RefusedNoCommit else WorkLease.Moved)
      ensures owner == if result == WorkLease.Moved then next else old(owner)
    {
      if next == None {
        return WorkLease.RefusedNil;
      }
      if returned {
        return WorkLease.RefusedReturned;
      }
      if noCommit {
        return WorkLease.RefusedNoCommit;
      }
      owner := next;
      return WorkLease.Moved;
    }

    // The first mark bars the lease and marks its call as well, and tells an owner that wants to
    // know. The call stays open only if a shared owner retains it. No slot is given back.
    method MarkNoCommit(between: seq<seq<WorkLease.Operation>>, answers: nat -> bool)
      returns (told: Option<WorkLease.Owner>, callTold: Option<WorkLease.Owner>, retained: bool)
      requires Valid() && call.Valid()
      modifies this`noCommit, call
      ensures Valid() && call.Valid() && noCommit == (old(noCommit) || !returned)
      ensures old(noCommit) || returned ==> unchanged(call) && told == callTold == None && !retained
      ensures !old(noCommit) && !returned ==>
        && told == (if owner.Some? && owner.value.NoCommitOwner? then owner else None)
        && (retained <==> call.SubAcquireAllowed())
        && (retained ==> call.owner.Some? && call.owner.value.SharedOwner? && exists n :: answers(n))
        && (callTold.Some? ==> call.noCommit && call.owner == callTold && callTold.value.NoCommitOwner?)
    {
      if noCommit || returned {
        return None, None, false;
      }
      noCommit := true;
      retained, callTold := WorkLease.MarkNoCommit(call, between, answers);
      told := if owner.Some? && owner.value.NoCommitOwner? then owner else None;
    }

    // The first return alone gives the slot back, to the next waiter in order, and hands out the
    // owner to be released.
    method WorkerReturned(ended: Ended) returns (released: Option<WorkLease.Owner>)
      requires Valid() && Proper(ended, limiter.waiters)
      modifies this, limiter
      ensures Valid() && returned && slotReleases == 1 && noCommit == old(noCommit)
      ensures released == old(owner) && ownerReleases == old(ownerReleases) + (if released.Some? then 1 else 0)
      ensures old(returned) ==> unchanged(this) && unchanged(limiter)
      ensures !old(returned) ==>
        limiter.GaveBack(old(limiter.all), old(limiter.waiters), old(limiter.active), old(limiter.holders), parent,
        ended)
      ensures Settles(old(limiter.all), limiter.all) && InOrder(old(limiter.all), limiter.all)
    {
      hide WaitersOk, InOrder, Settles;
      NothingSettles(limiter.all);
      if returned {
        return None;
      }
      returned := true;
      released := owner;
      owner := None;
      if released.Some? {
        ownerReleases := ownerReleases + 1;
      }
      slotReleases := slotReleases + 1;
      limiter.Release(parent, ended);
    }
  }

  // Before the work starts, its context, deadline and call are looked at once more; a unit that
  // may not start gives its slot back at once.
  method FinishReserved(limiter: SubLimiter, parent: nat, call: WorkLease.Lease, terminal: Option<Outcome>,
                        ended: Ended)
    returns (lease: SubLease, outcome: Outcome)
    requires limiter.Valid() && parent in limiter.holders && Proper(ended, limiter.waiters)
             && terminal != Some(Acquired)
    modifies limiter
    ensures fresh(lease) && lease.Valid() && lease.limiter == limiter && lease.parent == parent && lease.call == call
    ensures outcome == if terminal.Some? then terminal.value
                       else if call.SubAcquireAllowed() then Acquired else CancelledSub
    ensures lease.returned <==> outcome != Acquired
    ensures outcome == Acquired ==> unchanged(limiter) && lease.owner == None && !lease.noCommit
    ensures outcome != Acquired ==>
      limiter.GaveBack(old(limiter.all), old(limiter.waiters), old(limiter.active), old(limiter.holders), parent, ended)
    ensures Settles(old(limiter.all), limiter.all) && InOrder(old(limiter.all), limiter.all)
  {
    hide WaitersOk, InOrder, Settles;
    NothingSettles(limiter.all);
    lease := new SubLease(limiter, parent, call);
    if terminal.Some? {
      var _ := lease.WorkerReturned(ended);
      return lease, terminal.value;
    }
    if !call.SubAcquireAllowed() {
      var _ := lease.WorkerReturned(ended);
      return lease, CancelledSub;
    }
    return lease, Acquired;
  }
}
