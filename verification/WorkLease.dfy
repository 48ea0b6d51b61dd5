// A work lease: the right to one active slot, the owner of what the work holds, and the two
// one-way switches that stop its publication and end it. Each method is one section under the
// lease's lock; asking a shared owner happens between two of them.
module WorkLease {
  import opened Wrappers

  datatype Owner = PlainOwner(id: nat) | NoCommitOwner(id: nat) | SharedOwner(id: nat)

  datatype Transferred = Moved | RefusedNil | RefusedReturned | RefusedNoCommit

  // What marking a lease no-commit has to do next: nothing, tell its owner, or ask its shared
  // owner whether others still need the work.
  datatype Ask = Settled | Tell(owner: Owner) | AskShared(owner: Owner, generation: nat)

  class Lease {
    var owner: Option<Owner>
    var ownerGeneration: nat
    var noCommit: bool
    var returned: bool
    var hasRelease: bool
    // Every owner the lease ever had, and how often its slot and an owner were released.
    ghost var owners: seq<Owner>
    ghost var slotReleases: nat
    ghost var ownerReleases: nat

    constructor ()
      ensures Valid() && owner == None && !noCommit && !returned && owners == []
    {
      owner, ownerGeneration, noCommit, returned, hasRelease := None, 0, false, false, true;
      owners, slotReleases, ownerReleases := [], 0, 0;
    }

    // A generation names one owner for good; the slot is released exactly when the lease is
    // returned, and with it the owner it then had, if any.
    ghost predicate Valid()
      reads this
    {
      && ownerGeneration == |owners|
      && (hasRelease <==> !returned)
      && owner == (if returned || owners == [] then None else Some(owners[|owners| - 1]))
      && slotReleases == (if returned then 1 else 0)
      && ownerReleases == (if returned && owners != [] then 1 else 0)
    }

    method Transfer(next: Option<Owner>) returns (result: Transferred)
      requires Valid()
      modifies this
      ensures Valid() && noCommit == old(noCommit) && returned == old(returned)
      ensures result == (if next == None then RefusedNil else if returned then RefusedReturned
                         else if noCommit then RefusedNoCommit else Moved)
      ensures result == Moved ==> owner == next && owners == old(owners) + [next.value]
      ensures result != Moved ==> unchanged(this)
    {
      if next == None {
        return RefusedNil;
      }
      if returned {
        return RefusedReturned;
      }
      if noCommit {
        return RefusedNoCommit;
      }
      owner := next;
      ownerGeneration := ownerGeneration + 1;
      owners := owners + [next.value];
      return Moved;
    }

    // The first half of marking no-commit. Only a shared owner leaves the question open.
    method BeginNoCommit() returns (ask: Ask)
      requires Valid()
      modifies this`noCommit
      ensures Valid()
      ensures old(noCommit) || returned ==> ask == Settled && noCommit == old(noCommit)
      ensures !old(noCommit) && !returned ==>
        match owner
        case Some(SharedOwner(id)) => ask == AskShared(SharedOwner(id), |owners|) && !noCommit
        case Some(NoCommitOwner(id)) => ask == Tell(NoCommitOwner(id)) && noCommit
        case _ => ask == Settled && noCommit
    {
      if noCommit || returned {
        return Settled;
      }
      match owner {
        case Some(SharedOwner(id)) =>
          return AskShared(SharedOwner(id), ownerGeneration);
        case Some(NoCommitOwner(id)) =>
          noCommit := true;
          return Tell(NoCommitOwner(id));
        case _ =>
          noCommit := true;
          return Settled;
      }
    }

    // The second half, with the shared owner's answer. An answer counts only if the owner that
    // gave it was never replaced since; otherwise the question is asked again.
    method EndNoCommit(asked: Owner, generation: nat, retain: bool) returns (retry: bool)
      requires Valid() && 0 < generation <= |owners| && owners[generation - 1] == asked
      modifies this`noCommit
      ensures Valid()
      ensures retry <==> !old(noCommit) && !returned && generation != |owners|
      ensures noCommit <==> old(noCommit) || (!returned && generation == |owners| && !retain)
    {
      if noCommit || returned {
        return false;
      }
      if owner != Some(asked) || ownerGeneration != generation {
        return true;
      }
      if retain {
        return false;
      }
      noCommit := true;
      return false;
    }

    // The work slot and its owner are handed out for release by the first call only.
    method WorkerReturned() returns (released: Option<Owner>, release: bool)
      requires Valid()
      modifies this
      ensures Valid() && returned && noCommit == old(noCommit) && owners == old(owners)
      ensures release <==> !old(returned)
      ensures released == old(owner)
      ensures old(returned) ==> unchanged(this)
    {
      if returned {
        return None, false;
      }
      returned := true;
      released := owner;
      owner := None;
      release := hasRelease;
      hasRelease := false;
      if released.Some? {
        ownerReleases := ownerReleases + 1;
      }
      slotReleases := slotReleases + 1;
    }

    predicate SubAcquireAllowed()
      reads this
    {
      !noCommit && !returned
    }
  }

  // ---- Over whole runs ----

  // What can be asked of a lease. An answer of a shared owner belongs to a question asked before.
  datatype Operation =
    | Move(next: Option<Owner>)
    | Begin
    | Answer(question: nat, retain: bool)
    | Return

  // Runs operations in any order. A lease that may not acquire work or is returned stays so, its
  // owner is not replaced any more, and its slot is released at most once in all, namely exactly
  // if the lease is returned in the end.
  method RunOperations(lease: Lease, operations: seq<Operation>)
    requires lease.Valid()
    modifies lease
    ensures lease.Valid()
    ensures old(lease.noCommit) ==> lease.noCommit
    ensures old(lease.returned) ==> lease.returned
    ensures !old(lease.SubAcquireAllowed()) ==> !lease.SubAcquireAllowed() && lease.owners == old(lease.owners)
    ensures old(lease.owners) <= lease.owners
    ensures lease.slotReleases == if lease.returned then 1 else 0
  {
    var asked: seq<(Owner, nat)> := [];
    var k := 0;
    while k < |operations|
      invariant 0 <= k <= |operations| && lease.Valid()
      invariant forall i :: 0 <= i < |asked| ==>
        0 < asked[i].1 <= |lease.owners| && lease.owners[asked[i].1 - 1] == asked[i].0
      invariant (old(lease.noCommit) ==> lease.noCommit) && (old(lease.returned) ==> lease.returned)
      invariant !old(lease.SubAcquireAllowed()) ==> !lease.SubAcquireAllowed() && lease.owners == old(lease.owners)
      invariant old(lease.owners) <= lease.owners
    {
      match operations[k] {
        case Move(next) =>
          var _ := lease.Transfer(next);
        case Begin =>
          var ask := lease.BeginNoCommit();
          if ask.AskShared? {
            asked := asked + [(ask.owner, ask.generation)];
          }
        case Answer(question, retain) =>
          if question < |asked| {
            var _ := lease.EndNoCommit(asked[question].0, asked[question].1, retain);
          }
        case Return =>
          var _, _ := lease.WorkerReturned();
      }
      k := k + 1;
    }
  }

  // Marks a lease no-commit while others use it: before each answer of a shared owner the next
  // operations of `between` take place, and an answer that comes too late is asked for again.
  // Afterwards the lease is barred, unless it is retained: then it still has a shared owner, and
  // that owner answered so.
  method MarkNoCommit(lease: Lease, between: seq<seq<Operation>>, answers: nat -> bool)
    returns (retained: bool, told: Option<Owner>)
    requires lease.Valid()
    modifies lease
    ensures lease.Valid() && old(lease.owners) <= lease.owners
    ensures retained <==> lease.SubAcquireAllowed()
    ensures retained ==> lease.owner.Some? && lease.owner.value.SharedOwner? && exists n :: answers(n)
    ensures told.Some? ==> lease.noCommit && lease.owner == told && told.value.NoCommitOwner?
    ensures !old(lease.SubAcquireAllowed()) ==> unchanged(lease) && told == None
    ensures between == [] && old(lease.SubAcquireAllowed()) ==>
      && lease.owner == old(lease.owner) && lease.returned == old(lease.returned)
      && (retained <==> lease.owner.Some? && lease.owner.value.SharedOwner? && answers(0))
      && told == if lease.owner.Some? && lease.owner.value.NoCommitOwner? then lease.owner else None
  {
    var k := 0;
    while true
      invariant 0 <= k <= |between| && lease.Valid() && old(lease.owners) <= lease.owners
      invariant k == 0 ==> unchanged(lease)
      invariant k > 0 ==> old(lease.SubAcquireAllowed())
      decreases |between| - k
    {
      var ask := lease.BeginNoCommit();
      if !ask.AskShared? {
        return false, if ask.Tell? then Some(ask.owner) else None;
      }
      if k < |between| {
        RunOperations(lease, between[k]);
      }
      var retry := lease.EndNoCommit(ask.owner, ask.generation, answers(k));
      if !retry {
        return lease.SubAcquireAllowed(), None;
      }
      k := k + 1;
    }
  }
}
