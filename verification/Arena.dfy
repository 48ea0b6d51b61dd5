// Fixed-capacity storage of the cursor registry (internal/cursor/storage.go and the LRU
// methods of internal/cursor/registry.go): an arena whose free cells form an intrusive list
// and whose references carry a generation, and an intrusive doubly linked recency list.

module Arena {

  import opened Wrappers

  // ^arenaRef(0): the reference that names no cell.
  const NO_REF: nat := 0xFFFF_FFFF
  const MAX_GENERATION: nat := 0xFFFF_FFFF

  datatype Ref = Ref(index: nat, generation: nat)

  datatype Claim = Exhausted | Claimed(ref: Ref)

  // The columns of one arena position; `row` stands for the payload columns.
  datatype Cell<T> = Cell(occupied: bool, generation: nat, nextFree: nat, row: T)

  function HeadOf(s: seq<nat>): nat {
    if s == [] then NO_REF else s[0]
  }

  function LastOf(s: seq<nat>): nat {
    if s == [] then NO_REF else s[|s| - 1]
  }

  function After(s: seq<nat>, k: nat): nat
    requires k < |s|
  {
    if k + 1 < |s| then s[k + 1] else NO_REF
  }

  function Before(s: seq<nat>, k: nat): nat
    requires k < |s|
  {
    if k == 0 then NO_REF else s[k - 1]
  }

  // The nextFree column, followed from the head, lists exactly the unoccupied cells.
  ghost predicate FreeList<T>(cells: seq<Cell<T>>, free: seq<nat>) {
    && Distinct(free)
    && (forall k :: 0 <= k < |free| ==>
          free[k] < |cells| && !cells[free[k]].occupied && cells[free[k]].nextFree == After(free, k))
    && (forall i :: 0 <= i < |cells| && !cells[i].occupied ==> i in free)
  }

  // Every reference handed out so far is not ahead of its cell, and behind it once released.
  ghost predicate Outdated<T>(cells: seq<Cell<T>>, issued: set<Ref>) {
    forall r :: r in issued ==> r.index < |cells| && r.generation <= cells[r.index].generation
                                && (r.generation == cells[r.index].generation ==> cells[r.index].occupied)
  }

  lemma AllFree<T>(cells: seq<Cell<T>>, free: seq<nat>)
    requires |cells| == |free|
    requires forall i :: 0 <= i < |free| ==> free[i] == i
    requires forall i :: 0 <= i < |cells| ==>
      !cells[i].occupied && cells[i].nextFree == if i + 1 < |cells| then i + 1 else NO_REF
    ensures FreeList(cells, free)
  {
    forall i | 0 <= i < |cells| ensures i in free {
      assert free[i] == i;
    }
  }

  class Store<T> {
    const cells: array<Cell<T>>
    const vacant: T
    var freeHead: nat
    ghost var free: seq<nat>
    ghost var issued: set<Ref>

    ghost predicate Valid()
      reads this, cells
    {
      && 0 < cells.Length <= NO_REF
      && freeHead == HeadOf(free)
      && FreeList(cells[..], free)
      && Outdated(cells[..], issued)
    }

    predicate IsValid(ref: Ref)
      reads cells
    {
      ref.index < cells.Length && cells[ref.index].occupied && cells[ref.index].generation == ref.generation
    }

    // newEntryArena / newLineageArena: all cells free in index order, generation one.
    constructor (size: nat, vacant: T)
      requires 0 < size <= NO_REF
      ensures Valid() && fresh(cells) && cells.Length == size && this.vacant == vacant
      ensures free == seq(size, i requires 0 <= i < size => i) && issued == {}
      ensures forall i :: 0 <= i < size ==> cells[i] == Cell(false, 1, if i + 1 < size then i + 1 else NO_REF, vacant)
    {
      cells := new Cell<T>[size]((i: nat) => Cell(false, 1, if i + 1 < size then i + 1 else NO_REF, vacant));
      this.vacant := vacant;
      freeHead := 0;
      free := seq(size, i requires 0 <= i < size => i);
      issued := {};
      new;
      AllFree(cells[..], free);
    }

    // claim takes the head of the free list; it fails only when every cell is occupied, and
    // the reference it returns was never handed out before.
    method ClaimCell() returns (claim: Claim)
      requires Valid()
      modifies this, cells
      ensures Valid()
      ensures claim.Exhausted? <==> old(free) == []
      ensures claim.Exhausted? ==> cells[..] == old(cells[..]) && free == old(free) && issued == old(issued)
      ensures claim.Claimed? ==>
        var i := old(free)[0];
        && i < cells.Length && free == old(free)[1..] && claim.ref == Ref(i, old(cells[i].generation))
        && cells[..] == old(cells[..])[i := old(cells[i]).(occupied := true, nextFree := NO_REF)]
        && claim.ref !in old(issued) && issued == old(issued) + {claim.ref} && IsValid(claim.ref)
    {
      if freeHead == NO_REF { return Exhausted; }
      var index := freeHead;
      freeHead := cells[index].nextFree;
      cells[index] := cells[index].(occupied := true, nextFree := NO_REF);
      free := free[1..];
      issued := issued + {Ref(index, cells[index].generation)};
      return Claimed(Ref(index, cells[index].generation));
    }

    // claim, then write the payload columns.
    method ClaimWith(row: T) returns (claim: Claim)
      requires Valid()
      modifies this, cells
      ensures Valid()
      ensures claim.Exhausted? <==> old(free) == []
      ensures claim.Claimed? ==>
        var i := old(free)[0];
        && i < cells.Length && free == old(free)[1..] && claim.ref == Ref(i, old(cells[i].generation))
        && cells[..] == old(cells[..])[i := Cell(true, old(cells[i].generation), NO_REF, row)] && IsValid(claim.ref)
    {
      hide FreeList, Outdated;
      claim := ClaimCell();
      if claim.Claimed? { Write(claim.ref.index, row); }
    }

    // release clears the payload, advances the generation and returns the cell to the list.
    method Release(ref: Ref) returns (released: bool)
      requires Valid()
      modifies this, cells
      ensures Valid() && issued == old(issued)
      ensures released <==> old(IsValid(ref)) && ref.generation != MAX_GENERATION
      ensures !released ==> cells[..] == old(cells[..]) && free == old(free)
      ensures released ==>
        && free == [ref.index] + old(free) && !IsValid(ref)
        && cells[..] == old(cells[..])[ref.index := Cell(false, ref.generation + 1, old(freeHead), vacant)]
    {
      if !IsValid(ref) || ref.generation == MAX_GENERATION { return false; }
      assert ref.index !in free;
      cells[ref.index] := Cell(false, ref.generation + 1, freeHead, vacant);
      freeHead := ref.index;
      free := [ref.index] + free;
      return true;
    }

    // Writing payload columns touches neither occupancy nor the free list.
    method Write(index: nat, row: T)
      requires Valid() && index < cells.Length
      modifies cells
      ensures Valid()
      ensures cells[..] == old(cells[..])[index := old(cells[index]).(row := row)]
    {
      cells[index] := cells[index].(row := row);
    }
  }

  // ---------------------------------------------------------------- recency list

  // The links of `order`, most recent first.
  ghost predicate Linked(prev: seq<nat>, next: seq<nat>, order: seq<nat>)
  {
    && |prev| == |next| && Distinct(order)
    && (forall k :: 0 <= k < |order| ==>
          order[k] < |next| && prev[order[k]] == Before(order, k) && next[order[k]] == After(order, k))
  }

  function Without(s: seq<nat>, x: nat): (r: seq<nat>)
    ensures x !in r
    ensures forall y :: y in r <==> y in s && y != x
  {
    if s == [] then []
    else if s[0] == x then Without(s[1..], x) else [s[0]] + Without(s[1..], x)
  }

  lemma {:induction false} WithoutAbsent(s: seq<nat>, x: nat)
    requires x !in s
    ensures Without(s, x) == s
  {
    if s != [] { WithoutAbsent(s[1..], x); }
  }

  lemma {:induction false} WithoutAt(s: seq<nat>, p: nat)
    requires p < |s| && Distinct(s)
    ensures Without(s, s[p]) == s[..p] + s[p + 1..] && Distinct(Without(s, s[p]))
  {
    var rest := s[..p] + s[p + 1..];
    assert Distinct(rest);
    if p == 0 {
      WithoutAbsent(s[1..], s[0]);
      assert rest == s[1..];
    } else {
      WithoutAt(s[1..], p - 1);
      assert rest == [s[0]] + (s[1..][..p - 1] + s[1..][p..]);
    }
  }

  class RecencyList {
    const prev: array<nat>
    const next: array<nat>
    var head: nat
    var tail: nat
    ghost var order: seq<nat>

    ghost predicate Valid()
      reads this, prev, next
    {
      && prev != next && prev.Length == next.Length <= NO_REF
      && head == HeadOf(order) && tail == LastOf(order)
      && Linked(prev[..], next[..], order)
    }

    constructor (size: nat)
      requires size <= NO_REF
      ensures Valid() && order == [] && next.Length == size && fresh(prev) && fresh(next)
    {
      prev := new nat[size](_ => NO_REF);
      next := new nat[size](_ => NO_REF);
      head, tail := NO_REF, NO_REF;
      order := [];
    }

    method AttachFront(x: nat)
      requires Valid() && x < next.Length && x !in order
      modifies this, prev, next
      ensures Valid() && order == [x] + old(order)
    {
      hide Linked;
      Prepended(prev[..], next[..], order, x);
      prev[x] := NO_REF;
      next[x] := head;
      if head != NO_REF {
        prev[head] := x;
      } else {
        tail := x;
      }
      head := x;
      order := [x] + order;
    }

    method Detach(x: nat)
      requires Valid() && x in order
      modifies this, prev, next
      ensures Valid() && order == Without(old(order), x)
    {
      hide Linked;
      ghost var p :| 0 <= p < |order| && order[p] == x;
      LinkedAt(prev[..], next[..], order, p);
      WithoutAt(order, p);
      Spliced(prev[..], next[..], order, p);
      var previous, following := prev[x], next[x];
      if previous != NO_REF {
        next[previous] := following;
      } else {
        head := following;
      }
      if following != NO_REF {
        prev[following] := previous;
      } else {
        tail := previous;
      }
      prev[x] := NO_REF;
      next[x] := NO_REF;
      order := Without(order, x);
    }

    method Touch(x: nat)
      requires Valid() && x in order
      modifies this, prev, next
      ensures Valid() && order == [x] + Without(old(order), x)
    {
      if head == x {
        WithoutAt(order, 0);
        return;
      }
      Detach(x);
      AttachFront(x);
    }
  }

  lemma LinkedAt(prev: seq<nat>, next: seq<nat>, order: seq<nat>, k: nat)
    requires Linked(prev, next, order) && k < |order|
    ensures |prev| == |next| && Distinct(order)
    ensures order[k] < |next| && prev[order[k]] == Before(order, k) && next[order[k]] == After(order, k)
  {
  }

  function Set(s: seq<nat>, i: nat, x: nat): (t: seq<nat>) {
    if i < |s| then s[i := x] else s
  }

  // Linking x before the head of a linked order.
  lemma Prepended(prev: seq<nat>, next: seq<nat>, order: seq<nat>, x: nat)
    requires Linked(prev, next, order) && x < |next| <= NO_REF && x !in order
    ensures Linked(Set(prev[x := NO_REF], HeadOf(order), x), next[x := HeadOf(order)], [x] + order)
    ensures order != [] ==> HeadOf(order) < |next|
  {
    var prev', next', order' := Set(prev[x := NO_REF], HeadOf(order), x), next[x := HeadOf(order)], [x] + order;
    forall k | 0 <= k < |order'|
      ensures order'[k] < |next'| && prev'[order'[k]] == Before(order', k) && next'[order'[k]] == After(order', k)
    {
      if k > 0 { LinkedAt(prev, next, order, k - 1); }
    }
  }

  // Unlinking the element at position p of a linked order leaves the rest linked.
  lemma Spliced(prev: seq<nat>, next: seq<nat>, order: seq<nat>, p: nat)
    requires Linked(prev, next, order) && p < |order| && |next| <= NO_REF
    ensures order[p] < |next| && prev[order[p]] == Before(order, p) && next[order[p]] == After(order, p)
    ensures p > 0 ==> Before(order, p) < |next|
    ensures p + 1 < |order| ==> After(order, p) < |next|
    ensures Linked(Set(prev, After(order, p), Before(order, p))[order[p] := NO_REF],
                   Set(next, Before(order, p), After(order, p))[order[p] := NO_REF],
                   order[..p] + order[p + 1..])
  {
    hide Linked;
    WithoutAt(order, p) by { LinkedAt(prev, next, order, p); }
    LinkedAt(prev, next, order, p);
    if p > 0 { LinkedAt(prev, next, order, p - 1); }
    if p + 1 < |order| { LinkedAt(prev, next, order, p + 1); }
    var rest := order[..p] + order[p + 1..];
    var prev' := Set(prev, After(order, p), Before(order, p))[order[p] := NO_REF];
    var next' := Set(next, Before(order, p), After(order, p))[order[p] := NO_REF];
    forall k | 0 <= k < |rest|
      ensures rest[k] < |next'| && prev'[rest[k]] == Before(rest, k) && next'[rest[k]] == After(rest, k)
    {
      RestNeighbours(order, p, k);
      SplicedAt(prev, next, order, p, if k < p then k else k + 1);
    }
    MakeLinked(prev', next', rest);
  }

  lemma MakeLinked(prev: seq<nat>, next: seq<nat>, order: seq<nat>)
    requires |prev| == |next| && Distinct(order)
    requires forall k :: 0 <= k < |order| ==>
      order[k] < |next| && prev[order[k]] == Before(order, k) && next[order[k]] == After(order, k)
    ensures Linked(prev, next, order)
  {
  }

  lemma RestNeighbours(order: seq<nat>, p: nat, k: nat)
    requires p < |order| && k + 1 < |order|
    ensures var rest, q := order[..p] + order[p + 1..], if k < p then k else k + 1;
            && rest[k] == order[q]
            && Before(rest, k) == (if q == p + 1 then Before(order, p) else Before(order, q))
            && After(rest, k) == (if q + 1 == p then After(order, p) else After(order, q))
  {
  }

  lemma SplicedAt(prev: seq<nat>, next: seq<nat>, order: seq<nat>, p: nat, q: nat)
    requires Linked(prev, next, order) && p < |order| && |next| <= NO_REF && q < |order| && q != p
    ensures var prev' := Set(prev, After(order, p), Before(order, p))[order[p] := NO_REF];
            var next' := Set(next, Before(order, p), After(order, p))[order[p] := NO_REF];
            && order[q] < |next'|
            && prev'[order[q]] == (if q == p + 1 then Before(order, p) else Before(order, q))
            && next'[order[q]] == (if q + 1 == p then After(order, p) else After(order, q))
  {
    hide Linked, Distinct;
    LinkedAt(prev, next, order, p);
    LinkedAt(prev, next, order, q);
    Differ(order, p, q);
    if p + 1 < |order| { Differ(order, q, p + 1); }
    if p > 0 { Differ(order, q, p - 1); }
  }

  lemma Differ(s: seq<nat>, i: nat, j: nat)
    requires Distinct(s) && i < |s| && j < |s|
    ensures s[i] == s[j] <==> i == j
  {
  }
}
