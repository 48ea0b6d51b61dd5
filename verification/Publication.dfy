// Two-phase publication of a new lineage (internal/cursor/publication.go) and the response
// transaction that drives it (writePublishedToolResponseLocked in internal/mcpstdio/concurrency.go).
// The lineage can be looked up from Prepare on and is taken back unless the whole response is
// written; the transferred work slot is given back at most once.

module Publication {
  import opened Arena
  import opened RegistryModel
  import opened RegistryState
  import opened RegistrySteps
  import Registry

  // The lineage at position p leaves: at once, or with its last computation.
  ghost predicate TakenBack(before: seq<Item>, after: seq<Item>, p: nat) {
    p < |before| && after == Dropped(before, p)
  }

  // A publication that is still open takes its lineage back; any other leaves all as it is.
  ghost predicate GivenUp(open: bool, before: seq<Item>, after: seq<Item>, ref: nat, p: nat) {
    if open then TakenBack(before, after, p) && before[p].ref == ref else after == before
  }

  // The lineage at position p enters a phase; nothing else changes.
  ghost predicate Entered(before: seq<Item>, after: seq<Item>, p: nat, ref: nat, to: Flags, protectedUntil: int) {
    p < |before| && before[p].ref == ref && after == before[p := Advanced(before[p], to, protectedUntil)]
  }

  class InitialPublication {
    const registry: Registry.Registry
    const lineage: Ref
    var armed: bool
    var prepared: bool
    var terminal: bool
    var workReturned: bool
    // How many times this publication gave its work slot back.
    var slotReturns: nat

    // Rollback is armed until a terminal step, and the slot is given back once at most.
    ghost predicate Sound()
      reads this
    {
      && this !in registry.Repr && armed == !terminal
      && slotReturns <= 1 && (slotReturns == 1 ==> workReturned)
    }

    ghost predicate Valid()
      reads this, registry.Repr
    {
      Sound() && registry.Valid()
    }

    // It has not ended, and its lineage is still there.
    predicate Open()
      reads this, registry.lineages, registry.lineages.cells
    {
      !terminal && registry.lineages.IsValid(lineage)
    }

    // commitInitial hands out the publication of the lineage it installed.
    constructor (registry: Registry.Registry, lineage: Ref)
      requires registry.Valid()
      ensures Valid() && fresh(this) && armed && !prepared && !terminal && !workReturned && slotReturns == 0
      ensures this.registry == registry && this.lineage == lineage
    {
      hide Registry.Registry.Valid;
      this.registry, this.lineage := registry, lineage;
      armed, prepared, terminal, workReturned, slotReturns := true, false, false, false, 0;
    }

    // Prepare: a provisional lineage becomes visible to lookups, and is protected from
    // eviction for the hand-off grace.
    method Prepare(now: int) returns (ok: bool, ghost p: nat)
      requires Valid()
      modifies this`prepared, registry.Repr
      ensures ok <==>
        !terminal && !old(prepared) && !old(registry.closed) && old(registry.InPhaseAt(lineage, Provisional))
      ensures prepared == (old(prepared) || ok)
      ensures !ok ==> unchanged(registry.Repr)
      ensures ok ==>
        Entered(old(registry.View()), registry.View(), p, lineage.index, Publishing, AddDuration(now, HANDOFF_GRACE))
      ensures Kept(old(registry.View()), registry.View())
      ensures SameJobs(old(registry.entries.cells[..]), registry.entries.cells[..])
      ensures registry.closed == old(registry.closed) && Valid()
    {
      hide Registry.Registry.Valid, Registry.Registry.View, KeptBy, SameJobs, Advanced;
      p := 0;
      SameJobsRefl(registry.entries.cells[..]);
      KeptRefl(registry.View(), true, {});
      if terminal || !armed || prepared { return false, p; }
      ok, p := registry.AdvancePhase(lineage, Provisional, Publishing, AddDuration(now, HANDOFF_GRACE));
      if ok { prepared := true; }
    }

    // takeWorkLocked and the return of what it yields.
    method ReturnWork()
      requires Sound()
      modifies this`workReturned, this`slotReturns
      ensures Sound() && workReturned
      ensures slotReturns == old(slotReturns) + (if old(workReturned) then 0 else 1)
    {
      if !workReturned {
        workReturned := true;
        slotReturns := slotReturns + 1;
      }
    }

    // Commit: the response is out. The publication ends here whether or not the lineage is
    // still there to be published.
    method Commit() returns (ok: bool, ghost p: nat)
      requires Valid()
      modifies this, registry.Repr
      ensures ok <==>
        !old(terminal) && old(prepared) && !old(registry.closed) && old(registry.InPhaseAt(lineage, Publishing))
      ensures !ok ==> unchanged(registry.Repr)
      ensures ok ==> registry.InPhaseAt(lineage, Published)
      ensures ok ==> p < |old(registry.View())|
                     && Entered(old(registry.View()), registry.View(), p, lineage.index, Published,
                                old(registry.View())[p].row.protectedUntil)
      ensures if old(terminal) || !old(prepared) then unchanged(this)
              else terminal && workReturned && slotReturns == old(slotReturns) + (if old(workReturned) then 0 else 1)
      ensures KeptBy(old(registry.View()), registry.View(), true, if ok then old(registry.IdAt(lineage)) else {})
      ensures SameJobs(old(registry.entries.cells[..]), registry.entries.cells[..])
      ensures registry.closed == old(registry.closed) && Valid()
    {
      hide Registry.Registry.Valid, Registry.Registry.View, KeptBy, SameJobs;
      ok, p := false, 0;
      SameJobsRefl(registry.entries.cells[..]);
      KeptRefl(registry.View(), true, {});
      if terminal || !armed || !prepared { return; }
      if registry.lineages.IsValid(lineage) {
        var kept := registry.lineages.cells[lineage.index].row.protectedUntil;
        ghost var q := registry.PinsInView(lineage.index);
        registry.DistinctNow();
        ghost var items := registry.View();
        ok, p := registry.AdvancePhase(lineage, Publishing, Published, kept);
        if ok { SamePlaceInView(items, p, q); }
      }
      armed, terminal := false, true;
      ReturnWork();
    }

    // rollback, for Abort (the slot is given back), MarkNoCommit (it is not) and Release (the
    // worker already did): the lineage is taken back, unless the publication has ended.
    method Rollback(returnWork: bool, calledByWork: bool) returns (ghost p: nat)
      requires Valid()
      modifies this, registry.Repr
      ensures terminal && prepared == old(prepared) && workReturned == (old(workReturned) || calledByWork || returnWork)
      ensures slotReturns == old(slotReturns) + (if returnWork && !calledByWork && !old(workReturned) then 1 else 0)
      ensures !old(Open()) ==> unchanged(registry.Repr)
      ensures GivenUp(old(Open()), old(registry.View()), registry.View(), lineage.index, p)
      ensures Kept(old(registry.View()), registry.View())
      ensures SameJobs(old(registry.entries.cells[..]), registry.entries.cells[..])
      ensures registry.closed == old(registry.closed) && Valid()
    {
      hide Registry.Registry.Valid, Registry.Registry.View, KeptBy, SameJobs, Dropped;
      p := 0;
      SameJobsRefl(registry.entries.cells[..]);
      KeptRefl(registry.View(), true, {});
      if calledByWork { workReturned := true; }
      if !terminal {
        terminal, armed := true, false;
        var gone;
        gone, p := registry.RemoveLineage(lineage);
      }
      if returnWork { ReturnWork(); }
    }

    // The first half of the response transaction: check that output is allowed, then prepare.
    // A failure aborts: the slot is given back, and the response is not written.
    method BeginResponse(allowed: bool, now: int) returns (ready: bool, ghost p: nat)
      requires Valid() && !terminal && !prepared
      modifies this, registry.Repr
      ensures ready <==> allowed && !old(registry.closed) && old(registry.InPhaseAt(lineage, Provisional))
      ensures ready ==>
        && !terminal && prepared && slotReturns == old(slotReturns) && workReturned == old(workReturned)
        && Entered(old(registry.View()), registry.View(), p, lineage.index, Publishing, AddDuration(now, HANDOFF_GRACE))
      ensures !ready ==> Aborted(old(workReturned), old(slotReturns))
      ensures !ready ==> GivenUp(old(Open()), old(registry.View()), registry.View(), lineage.index, p)
      ensures Kept(old(registry.View()), registry.View())
      ensures SameJobs(old(registry.entries.cells[..]), registry.entries.cells[..])
      ensures Valid()
    {
      hide Registry.Registry.Valid, Registry.Registry.View, KeptBy, SameJobs, Dropped, Advanced;
      p := 0;
      ready := false;
      ghost var cells := registry.entries.cells[..];
      SameJobsRefl(cells);
      if allowed {
        ready, p := Prepare(now);
      }
      if !ready {
        ghost var refused := registry.entries.cells[..];
        p := Rollback(true, false);
        SameJobsTrans(cells, refused, registry.entries.cells[..]);
      }
    }

    // The second half, after the attempt to write; the registry may have moved on meanwhile.
    // The lineage becomes published only if the whole response was written; otherwise it is
    // taken back. The slot is given back now, unless it was before, or unless the publication
    // had ended before the response was written: that commit is refused and returns nothing.
    method EndResponse(written: bool) returns (ok: bool, ghost p: nat)
      requires Valid() && prepared
      modifies this, registry.Repr
      ensures ok <==> written && !old(terminal) && !old(registry.closed) && old(registry.InPhaseAt(lineage, Publishing))
      ensures ok ==> p < |old(registry.View())|
                     && Entered(old(registry.View()), registry.View(), p, lineage.index, Published,
                                old(registry.View())[p].row.protectedUntil)
      ensures ok ==> registry.InPhaseAt(lineage, Published)
      ensures !ok && (written || !old(Open())) ==> unchanged(registry.Repr)
      ensures !ok ==> GivenUp(!written && old(Open()), old(registry.View()), registry.View(), lineage.index, p)
      ensures terminal && slotReturns
              == old(slotReturns) + (if old(workReturned) || (written && old(terminal)) then 0 else 1)
      ensures workReturned == (old(workReturned) || !(written && old(terminal)))
      ensures KeptBy(old(registry.View()), registry.View(), true, if ok then old(registry.IdAt(lineage)) else {})
      ensures SameJobs(old(registry.entries.cells[..]), registry.entries.cells[..])
      ensures Valid()
    {
      hide Registry.Registry.Valid, Registry.Registry.View, KeptBy, SameJobs, Dropped, Advanced;
      if !written {
        ok := false;
        p := Rollback(true, false);
      } else {
        ok, p := Commit();
      }
    }

    // The publication is over and its slot was given back, by whoever came first.
    predicate Aborted(wasReturned: bool, returnsBefore: nat)
      reads this
    {
      terminal && workReturned && slotReturns == returnsBefore + (if wasReturned then 0 else 1)
    }
  }

  // ---------------------------------------------------------------- one request

  // What was sent: the lineages whose whole response was written.
  class Transcript {
    ghost var written: set<nat>

    constructor ()
      ensures written == {}
    {
      written := {};
    }
  }

  // How far a request with a publication has come (runToolRequest in
  // internal/mcpstdio/tool_requests.go): executed, entitled to respond, writing, or over.
  datatype Stage = Executed | Entitled | Writing | Over

  // How many steps of the worker a request is from its end at most.
  function StepsLeft(stage: Stage): nat {
    match stage
    case Executed => 3
    case Entitled => 2
    case Writing => 1
    case Over => 0
  }

  // A request may be cancelled at any time until it is entitled to respond. Each method is one
  // step of its worker, or a cancellation that comes between two of them.
  class ToolRequest {
    const publication: InitialPublication
    const transcript: Transcript
    var cancelled: bool
    var responding: bool
    var stage: Stage

    ghost predicate Separated()
      reads this
    {
      && this !in publication.registry.Repr && transcript !in publication.registry.Repr
      && publication !in publication.registry.Repr
    }

    // A cancelled request does not respond. Until the request is over its slot is not given
    // back, and the publication has ended exactly if the request was cancelled; once it is over,
    // the slot was given back exactly once.
    ghost predicate InStep()
      reads this, publication
    {
      && !(cancelled && responding)
      && (stage == Entitled || stage == Writing ==> responding)
      && (stage != Over ==>
            !publication.workReturned && publication.slotReturns == 0 && (publication.terminal <==> cancelled) &&
            (publication.prepared <==> stage == Writing))
      && (stage == Over ==> publication.terminal && publication.workReturned && publication.slotReturns == 1)
    }

    // No lineage is published whose response was not written whole.
    ghost predicate Truthful()
      reads transcript, publication.registry.Repr
    {
      PublishedIds(publication.registry.View()) <= transcript.written
    }

    ghost predicate Valid()
      reads this, transcript, publication, publication.registry.Repr
    {
      Separated() && publication.Valid() && InStep() && Truthful()
    }

    // The executor handed over a publication; the request may have been cancelled meanwhile.
    constructor (publication: InitialPublication, transcript: Transcript, cancelled: bool)
      requires publication.Valid() && transcript !in publication.registry.Repr
      requires !publication.workReturned && publication.slotReturns == 0 && !publication.prepared
      requires publication.terminal == cancelled
      requires PublishedIds(publication.registry.View()) <= transcript.written
      ensures Valid() && stage == Executed && this.cancelled == cancelled && !responding
      ensures this.publication == publication && this.transcript == transcript
    {
      hide Registry.Registry.Valid, Registry.Registry.View, PublishedIds;
      this.publication, this.transcript := publication, transcript;
      this.cancelled, responding, stage := cancelled, false, Executed;
    }

    // cancel: refused once the request may respond. The work lease tells the publication, which
    // takes its lineage back and keeps the slot.
    method Cancel() returns (ok: bool, ghost p: nat)
      requires Valid()
      modifies this`cancelled, publication, publication.registry.Repr
      ensures ok <==> !old(cancelled) && !responding
      ensures cancelled == (old(cancelled) || ok)
      ensures !ok ==> unchanged(publication) && unchanged(publication.registry.Repr)
      ensures ok ==> GivenUp(old(publication.Open()), old(publication.registry.View()), publication.registry.View(),
                             publication.lineage.index, p)
      ensures Kept(old(publication.registry.View()), publication.registry.View())
      ensures SameJobs(old(publication.registry.entries.cells[..]), publication.registry.entries.cells[..])
      ensures Valid()
    {
      hide Registry.Registry.Valid, Registry.Registry.View, SameJobs, TakenBack, Settled, Credited, PublishedIds;
      SameJobsRefl(publication.registry.entries.cells[..]);
      if cancelled || responding {
        KeptRefl(publication.registry.View(), true, {});
        return false, 0;
      }
      cancelled := true;
      p := publication.Rollback(false, false);
      return true, p;
    }

    // The worker gives up: the publication is aborted and the slot given back.
    method Abort() returns (ghost p: nat)
      requires Valid() && stage != Over
      modifies this`stage, publication, publication.registry.Repr
      ensures stage == Over && publication.slotReturns == 1 && StepsLeft(stage) < old(StepsLeft(stage))
      ensures GivenUp(old(publication.Open()), old(publication.registry.View()), publication.registry.View(),
                      publication.lineage.index, p)
      ensures Kept(old(publication.registry.View()), publication.registry.View())
      ensures SameJobs(old(publication.registry.entries.cells[..]), publication.registry.entries.cells[..])
      ensures Valid()
    {
      hide Registry.Registry.Valid, Registry.Registry.View, SameJobs, TakenBack, Settled, Credited, PublishedIds;
      p := publication.Rollback(true, false);
      stage := Over;
    }

    // From the executor's return to the right to respond: a request that was cancelled, whose
    // result cannot be encoded or whose connection accepts no response any more is given up.
    method Claim(encoded: bool, accepting: bool) returns (ghost p: nat)
      requires Valid() && stage == Executed && !responding
      modifies this, publication, publication.registry.Repr
      ensures stage == if old(cancelled) || !encoded || !accepting then Over else Entitled
      ensures cancelled == old(cancelled) && responding == (stage == Entitled)
      ensures StepsLeft(stage) < old(StepsLeft(stage))
      ensures GivenUp(stage == Over && old(publication.Open()), old(publication.registry.View()),
                      publication.registry.View(), publication.lineage.index, p)
      ensures Kept(old(publication.registry.View()), publication.registry.View())
      ensures SameJobs(old(publication.registry.entries.cells[..]), publication.registry.entries.cells[..])
      ensures Valid()
    {
      hide Registry.Registry.Valid, Registry.Registry.View, SameJobs, KeptBy, PublishedIds;
      SameJobsRefl(publication.registry.entries.cells[..]);
      KeptRefl(publication.registry.View(), true, {});
      p := 0;
      if cancelled || !encoded || !accepting {
        p := Abort();
        return;
      }
      // claimResponse.
      responding := true;
      stage := Entitled;
    }

    // The response transaction begins: output is allowed and the lineage prepared, or the
    // request is given up.
    method Begin(allowed: bool, now: int) returns (ghost p: nat)
      requires Valid() && stage == Entitled
      modifies this`stage, publication, publication.registry.Repr
      ensures (stage == Writing || stage == Over) && StepsLeft(stage) < old(StepsLeft(stage))
      ensures stage == Writing <==>
        allowed && !old(publication.registry.closed)
          && old(publication.registry.InPhaseAt(publication.lineage, Provisional))
      ensures stage == Writing ==>
        Entered(old(publication.registry.View()), publication.registry.View(), p, publication.lineage.index, Publishing,
                AddDuration(now, HANDOFF_GRACE))
      ensures stage == Over ==>
        GivenUp(old(publication.Open()), old(publication.registry.View()), publication.registry.View(),
                publication.lineage.index, p)
      ensures Kept(old(publication.registry.View()), publication.registry.View())
      ensures SameJobs(old(publication.registry.entries.cells[..]), publication.registry.entries.cells[..])
      ensures Valid()
    {
      hide Registry.Registry.Valid, Registry.Registry.View, SameJobs, TakenBack, Entered, Settled, Credited;
      hide PublishedIds;
      var ready;
      ready, p := publication.BeginResponse(allowed, now);
      stage := if ready then Writing else Over;
    }

    // The attempt to write the response is over. The lineage becomes published exactly if the
    // response was written whole and the lineage was still there; in every case the slot is
    // given back now.
    method End(whole: bool) returns (published: bool, ghost p: nat)
      requires Valid() && stage == Writing
      modifies this`stage, transcript, publication, publication.registry.Repr
      ensures stage == Over && publication.slotReturns == 1 && StepsLeft(stage) < old(StepsLeft(stage))
      ensures published <==>
        whole && !old(publication.registry.closed)
          && old(publication.registry.InPhaseAt(publication.lineage, Publishing))
      ensures transcript.written ==
        old(transcript.written) + (if whole then old(publication.registry.IdAt(publication.lineage)) else {})
      ensures published ==>
        && publication.registry.InPhaseAt(publication.lineage, Published)
        && p < |old(publication.registry.View())|
        && Entered(old(publication.registry.View()), publication.registry.View(), p, publication.lineage.index,
                   Published, old(publication.registry.View())[p].row.protectedUntil)
      ensures !published ==>
        GivenUp(!whole && old(publication.Open()), old(publication.registry.View()), publication.registry.View(),
                publication.lineage.index, p)
      ensures KeptBy(old(publication.registry.View()), publication.registry.View(), true,
                     if published then old(publication.registry.IdAt(publication.lineage)) else {})
      ensures SameJobs(old(publication.registry.entries.cells[..]), publication.registry.entries.cells[..])
      ensures Valid()
    {
      hide Registry.Registry.Valid, Registry.Registry.View, SameJobs, TakenBack, Entered, Settled, Credited;
      hide PublishedIds;
      if whole {
        transcript.written := transcript.written + publication.registry.IdAt(publication.lineage);
      }
      published, p := publication.EndResponse(whole);
      stage := Over;
    }

    // Any other section of the registry leaves the request where it is, be it the end of another
    // request that wrote its response whole.
    lemma KeptByOthers(before: seq<Item>, frugal: bool, announced: set<nat>)
      requires Separated() && InStep() && publication.Valid()
      requires PublishedIds(before) + announced <= transcript.written
      requires KeptBy(before, publication.registry.View(), frugal, announced)
      ensures Valid()
    {
      hide Registry.Registry.Valid, Registry.Registry.View, PublishedIds, Settled, Credited;
    }

    // However cancellation falls between the steps, the slot is never given back twice, and
    // exactly once by the time the request is over.
    lemma SlotReturnedOnce()
      requires Valid()
      ensures publication.slotReturns <= 1 && (publication.slotReturns == 1 <==> stage == Over)
    {
    }
  }
}
