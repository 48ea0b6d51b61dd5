// The fixed-size open-addressed index of the cursor registry: linear probing with
// backward-shift deletion (internal/cursor/storage.go). The token index and the lineage
// index are the same code at two key types, so one generic class stands for both.

module HashIndex {

  // One slot: the parallel columns state/home/key/entry read at one position.
  datatype Slot<K> = Empty | Full(home: nat, key: K, value: nat)

  datatype Found = Missing | At(value: nat)

  datatype InsertOutcome = Inserted | DuplicateKey | IndexFull | InvalidHome

  // ---------------------------------------------------------------- cyclic positions

  // The slot reached after `distance` probes from `home`.
  function Probe(home: nat, distance: nat, size: nat): (slot: nat)
    requires home < size && distance < size
    ensures slot < size && Dist(home, slot, size) == distance
  {
    if home + distance < size then home + distance else home + distance - size
  }

  // The number of probes that lead from `home` to `slot`.
  function Dist(home: nat, slot: nat, size: nat): (distance: nat)
    requires home < size && slot < size
    ensures distance < size
  {
    if slot >= home then slot - home else slot + size - home
  }

  // The program computes the distance in 32-bit words, as (slot - home) & (size - 1). For a
  // size that divides 2^32 the wrapped subtraction reduced by the mask is the cyclic distance.
  lemma MaskedDistance(home: nat, slot: nat, size: nat, blocks: nat)
    requires home < size && slot < size && size * blocks == 0x1_0000_0000
    ensures ((slot - home) % 0x1_0000_0000) % size == Dist(home, slot, size)
  {
    MultipleInRange(size, blocks);
    if slot < home {
      Wraps(slot - home, 0x1_0000_0000);
      assert size * blocks == size * (blocks - 1) + size;
      RemainderUnique(slot + size - home, blocks - 1, size);
    } else {
      RemainderUnique(slot - home, 0, size);
    }
  }

  lemma Wraps(x: int, m: nat)
    requires 0 < -x <= m
    ensures x % m == if x == -(m as int) then 0 else x + m
  {
    if x != -(m as int) { RemainderUnique(x + m, -1, m); } else { RemainderUnique(0, -1, m); }
  }

  lemma RemainderUnique(rest: nat, quotient: int, size: nat)
    requires rest < size
    ensures (rest + size * quotient) % size == rest
  {
    var value := rest + size * quotient;
    var q, r := value / size, value % size;
    assert size * (quotient - q) == r - rest by {
      assert size * (quotient - q) == size * quotient - size * q;
    }
    MultipleInRange(size, quotient - q);
  }

  lemma MultipleInRange(size: nat, k: int)
    ensures k >= 1 ==> size * k >= size
    ensures k <= -1 ==> size * k <= -(size as int)
  {
    if k >= 1 {
      assert size * k == size + size * (k - 1);
    } else if k <= -1 {
      assert size * k == -(size as int) + size * (k + 1);
    }
  }

  // ---------------------------------------------------------------- meaning of a slot table

  // Every key sits in reach of the home its home function gives it: no slot on the way from
  // the home to the key is empty, except possibly `hole` (hole == |s| means no exception).
  ghost predicate Placed<K(!new)>(s: seq<Slot<K>>, hole: nat, homeOf: K -> nat) {
    && (forall i :: 0 <= i < |s| && s[i].Full? ==> s[i].home < |s| && s[i].home == homeOf(s[i].key))
    && (forall i, j :: 0 <= i < |s| && 0 <= j < |s| && OnTheWay(s, i, j) && j != hole ==> s[j].Full?)
  }

  // Slot j is probed before slot i when the key stored at i is searched.
  ghost predicate OnTheWay<K>(s: seq<Slot<K>>, i: nat, j: nat)
    requires i < |s| && j < |s|
  {
    s[i].Full? && s[i].home < |s| && Dist(s[i].home, j, |s|) < Dist(s[i].home, i, |s|)
  }

  ghost predicate UniqueKeys<K>(s: seq<Slot<K>>) {
    forall i, j :: 0 <= i < j < |s| && s[i].Full? && s[j].Full? ==> s[i].key != s[j].key
  }

  ghost predicate Holds<K>(s: seq<Slot<K>>, key: K, value: nat) {
    exists i :: 0 <= i < |s| && s[i].Full? && s[i].key == key && s[i].value == value
  }

  // The table represents the finite map m.
  ghost predicate Represents<K(!new)>(s: seq<Slot<K>>, m: map<K, nat>) {
    && UniqueKeys(s)
    && (forall i :: 0 <= i < |s| && s[i].Full? ==> s[i].key in m && m[s[i].key] == s[i].value)
    && (forall key :: key in m ==> Holds(s, key, m[key]))
  }

  ghost function CountFull<K>(s: seq<Slot<K>>): (n: nat)
    ensures n <= |s|
    ensures n == |s| <==> forall i :: 0 <= i < |s| ==> s[i].Full?
  {
    if s == [] then 0 else
      var n := CountFull(s[..|s| - 1]) + (if s[|s| - 1].Full? then 1 else 0);
      assert forall i :: 0 <= i < |s| - 1 ==> s[..|s| - 1][i] == s[i];
      n
  }

  lemma {:induction false} CountUpdate<K>(s: seq<Slot<K>>, i: nat, x: Slot<K>)
    requires i < |s|
    ensures CountFull(s[i := x]) == CountFull(s) - (if s[i].Full? then 1 else 0) + (if x.Full? then 1 else 0)
  {
    var t := s[i := x];
    if i < |s| - 1 {
      assert t[..|t| - 1] == s[..|s| - 1][i := x];
      CountUpdate(s[..|s| - 1], i, x);
    } else {
      assert t[..|t| - 1] == s[..|s| - 1];
    }
  }

  lemma {:induction false} EmptyTable<K>(s: seq<Slot<K>>)
    requires forall i :: 0 <= i < |s| ==> s[i].Empty?
    ensures CountFull(s) == 0
  {
    if s != [] { EmptyTable(s[..|s| - 1]); }
  }

  // ---------------------------------------------------------------- searching

  // The first `probes` slots searched for `key` are taken by other keys.
  ghost predicate Passed<K>(s: seq<Slot<K>>, home: nat, probes: nat, key: K)
    requires home < |s| && probes <= |s|
  {
    forall j :: 0 <= j < |s| && Dist(home, j, |s|) < probes ==> s[j].Full? && s[j].key != key
  }

  lemma NonePassed<K>(s: seq<Slot<K>>, home: nat, key: K)
    requires home < |s|
    ensures Passed(s, home, 0, key)
  {
  }

  lemma PassedNext<K>(s: seq<Slot<K>>, home: nat, probes: nat, key: K)
    requires home < |s| && probes < |s| && Passed(s, home, probes, key)
    requires var slot := s[Probe(home, probes, |s|)]; slot.Full? && slot.key != key
    ensures Passed(s, home, probes + 1, key)
  {
  }

  // A search that meets an empty slot, or has seen every slot, has proved the key absent.
  lemma SearchMiss<K(!new)>(s: seq<Slot<K>>, homeOf: K -> nat, m: map<K, nat>, key: K, probes: nat)
    requires Placed(s, |s|, homeOf) && Represents(s, m)
    requires homeOf(key) < |s| && probes <= |s| && Passed(s, homeOf(key), probes, key)
    requires probes < |s| ==> s[Probe(homeOf(key), probes, |s|)].Empty?
    ensures key !in m
  {
    forall i | 0 <= i < |s| && s[i].Full? && s[i].home == homeOf(key) ensures s[i].key != key {
      if probes < |s| {
        assert !OnTheWay(s, i, Probe(homeOf(key), probes, |s|));
      }
    }
  }

  // ---------------------------------------------------------------- inserting

  lemma InsertKeeps<K(!new)>(s: seq<Slot<K>>, homeOf: K -> nat, m: map<K, nat>, key: K, value: nat, probes: nat)
    requires Placed(s, |s|, homeOf) && Represents(s, m)
    requires homeOf(key) < |s| && probes < |s| && Passed(s, homeOf(key), probes, key)
    requires s[Probe(homeOf(key), probes, |s|)].Empty? && key !in m
    ensures var t := s[Probe(homeOf(key), probes, |s|) := Full(homeOf(key), key, value)];
            Placed(t, |t|, homeOf) && Represents(t, m[key := value]) && CountFull(t) == CountFull(s) + 1
  {
    var slot := Probe(homeOf(key), probes, |s|);
    var t := s[slot := Full(homeOf(key), key, value)];
    CountUpdate(s, slot, t[slot]);
    forall i, j | 0 <= i < |t| && 0 <= j < |t| && OnTheWay(t, i, j) ensures t[j].Full? {
      if i != slot { assert OnTheWay(s, i, j); }
    }
    var m' := m[key := value];
    assert t[slot].key == key && t[slot].value == m'[key];
    forall k | k in m' ensures Holds(t, k, m'[k]) {
      if k != key {
        var i :| 0 <= i < |s| && s[i].Full? && s[i].key == k && s[i].value == m[k];
        assert t[i] == s[i];
      }
    }
  }

  // ---------------------------------------------------------------- deleting

  // Emptying the slot of a key leaves one hole and removes exactly that key from the map.
  lemma ClearKeeps<K(!new)>(s: seq<Slot<K>>, homeOf: K -> nat, m: map<K, nat>, hole: nat)
    requires Placed(s, |s|, homeOf) && Represents(s, m) && hole < |s| && s[hole].Full?
    ensures var t := s[hole := Empty];
            Placed(t, hole, homeOf) && Represents(t, m - {s[hole].key}) && CountFull(t) == CountFull(s) - 1
  {
    var t := s[hole := Empty];
    CountUpdate(s, hole, Empty);
    forall i, j | 0 <= i < |t| && 0 <= j < |t| && OnTheWay(t, i, j) && j != hole ensures t[j].Full? {
      assert OnTheWay(s, i, j);
    }
    var m' := m - {s[hole].key};
    forall k | k in m' ensures Holds(t, k, m'[k]) {
      var i :| 0 <= i < |s| && s[i].Full? && s[i].key == k && s[i].value == m[k];
      assert t[i] == s[i];
    }
  }

  // Moving a key back into the hole keeps every probe path intact but for the vacated slot,
  // which becomes the hole, and keeps the map.
  lemma MoveKeeps<K(!new)>(s: seq<Slot<K>>, homeOf: K -> nat, m: map<K, nat>, hole: nat, slot: nat)
    requires Placed(s, hole, homeOf) && Represents(s, m)
    requires hole < |s| && slot < |s| && hole != slot && s[hole].Empty? && OnTheWay(s, slot, hole)
    ensures var t := s[hole := s[slot]][slot := Empty];
            Placed(t, slot, homeOf) && Represents(t, m) && CountFull(t) == CountFull(s)
  {
    var t := s[hole := s[slot]][slot := Empty];
    CountUpdate(s, hole, s[slot]);
    CountUpdate(s[hole := s[slot]], slot, Empty);
    MoveKeepsPaths(s, hole, slot);
    forall i | 0 <= i < |t| && t[i].Full? ensures t[i].home < |t| && t[i].home == homeOf(t[i].key) {
      assert t[i] == s[if i == hole then slot else i];
    }
    MoveKeepsMap(s, m, hole, slot);
  }

  lemma MoveKeepsPaths<K>(s: seq<Slot<K>>, hole: nat, slot: nat)
    requires forall i, j :: 0 <= i < |s| && 0 <= j < |s| && OnTheWay(s, i, j) && j != hole ==> s[j].Full?
    requires hole < |s| && slot < |s| && hole != slot && s[hole].Empty? && OnTheWay(s, slot, hole)
    ensures var t := s[hole := s[slot]][slot := Empty];
            forall i, j :: 0 <= i < |t| && 0 <= j < |t| && OnTheWay(t, i, j) && j != slot ==> t[j].Full?
  {
    var t := s[hole := s[slot]][slot := Empty];
    forall i, j | 0 <= i < |t| && 0 <= j < |t| && OnTheWay(t, i, j) && j != slot ensures t[j].Full? {
      if j != hole {
        assert OnTheWay(s, if i == hole then slot else i, j);
      }
    }
  }

  lemma MoveKeepsMap<K(!new)>(s: seq<Slot<K>>, m: map<K, nat>, hole: nat, slot: nat)
    requires Represents(s, m)
    requires hole < |s| && slot < |s| && hole != slot && s[hole].Empty? && s[slot].Full?
    ensures Represents(s[hole := s[slot]][slot := Empty], m)
  {
    var t := s[hole := s[slot]][slot := Empty];
    forall k | k in m ensures Holds(t, k, m[k]) {
      var i :| 0 <= i < |s| && s[i].Full? && s[i].key == k && s[i].value == m[k];
      assert t[if i == slot then hole else i] == s[i];
    }
  }

  ghost predicate OneHole<K(!new)>(s: seq<Slot<K>>, hole: nat, homeOf: K -> nat, m: map<K, nat>) {
    hole < |s| && s[hole].Empty? && Placed(s, hole, homeOf) && Represents(s, m)
  }

  lemma HomeInRange<K(!new)>(s: seq<Slot<K>>, homeOf: K -> nat, hole: nat, i: nat)
    requires Placed(s, hole, homeOf) && i < |s| && s[i].Full?
    ensures s[i].home < |s| && s[i].home == homeOf(s[i].key)
  {
  }

  // Slots at distance 1 .. scanned-1 behind the hole hold keys that are not on the wrong side
  // of the hole.
  ghost predicate Scanned<K>(s: seq<Slot<K>>, hole: nat, scanned: nat)
    requires hole < |s| && scanned <= |s|
  {
    forall i :: 0 <= i < |s| && 1 <= Dist(hole, i, |s|) < scanned ==> s[i].Full? && !OnTheWay(s, i, hole)
  }

  // When the scan has met an empty slot, or gone round the whole table, no key needs the hole:
  // every probe path is unbroken again.
  lemma ScanClosesHole<K(!new)>(s: seq<Slot<K>>, homeOf: K -> nat, hole: nat, scanned: nat)
    requires hole < |s| && s[hole].Empty? && Placed(s, hole, homeOf)
    requires 1 <= scanned <= |s| && Scanned(s, hole, scanned)
    requires scanned < |s| ==> s[Probe(hole, scanned, |s|)].Empty?
    ensures Placed(s, |s|, homeOf)
  {
    forall i | 0 <= i < |s| && s[i].Full? ensures !OnTheWay(s, i, hole) {
      if scanned < |s| && Dist(hole, i, |s|) > scanned {
        var stop := Probe(hole, scanned, |s|);
        assert !OnTheWay(s, i, stop);
      }
    }
  }

  // How far a key sits from its home.
  ghost function Displacement<K>(x: Slot<K>, i: nat, size: nat): nat
    requires i < size
  {
    if x.Full? && x.home < size then Dist(x.home, i, size) else 0
  }

  ghost function TotalDisplacement<K>(s: seq<Slot<K>>, n: nat): nat
    requires n <= |s|
  {
    if n == 0 then 0 else TotalDisplacement(s, n - 1) + Displacement(s[n - 1], n - 1, |s|)
  }

  lemma {:induction false} DisplacementUpdate<K>(s: seq<Slot<K>>, i: nat, x: Slot<K>, n: nat)
    requires i < |s| && n <= |s|
    ensures TotalDisplacement(s[i := x], n)
         == TotalDisplacement(s, n) + (if i < n then Displacement(x, i, |s|) - Displacement(s[i], i, |s|) else 0)
  {
    if n > 0 { DisplacementUpdate(s, i, x, n - 1); }
  }

  // Each restart of the deletion scan is paid for by a key that moved nearer to its home.
  lemma MoveLowersDisplacement<K>(s: seq<Slot<K>>, hole: nat, slot: nat)
    requires hole < |s| && slot < |s| && hole != slot && s[hole].Empty? && OnTheWay(s, slot, hole)
    ensures TotalDisplacement(s[hole := s[slot]][slot := Empty], |s|) < TotalDisplacement(s, |s|)
  {
    DisplacementUpdate(s, hole, s[slot], |s|);
    DisplacementUpdate(s[hole := s[slot]], slot, Empty, |s|);
  }

  // ---------------------------------------------------------------- the index

  class Index<K(==, !new)> {
    const slots: array<Slot<K>>
    var live: nat
    ghost var contents: map<K, nat>
    ghost const homeOf: K -> nat

    ghost predicate Valid()
      reads this, slots
    {
      && Placed(slots[..], slots.Length, homeOf)
      && Represents(slots[..], contents)
      && live == CountFull(slots[..]) == |contents|
    }

    constructor (size: nat, ghost homeOf: K -> nat)
      ensures Valid() && fresh(slots) && slots.Length == size && this.homeOf == homeOf
      ensures contents == map[] && live == 0
    {
      slots := new Slot<K>[size](_ => Empty);
      live := 0;
      contents := map[];
      this.homeOf := homeOf;
      new;
      EmptyTable(slots[..]);
    }

    // lookup answers exactly the finite map.
    method Lookup(key: K, home: nat) returns (found: Found)
      requires Valid() && home == homeOf(key)
      ensures found == if key in contents then Found.At(contents[key]) else Missing
    {
      if home >= slots.Length { return Missing; }
      var probe := 0;
      while probe < slots.Length
        invariant 0 <= probe <= slots.Length
        invariant Passed(slots[..], home, probe, key)
      {
        var slot := Probe(home, probe, slots.Length);
        if slots[slot].Empty? { break; }
        if slots[slot].key == key { return Found.At(slots[slot].value); }
        probe := probe + 1;
      }
      SearchMiss(slots[..], homeOf, contents, key, probe);
      return Missing;
    }

    // tokenForEntryLocked: the key stored with a value, found by walking the slots.
    method KeyOf(value: nat) returns (found: bool, slot: nat)
      requires Valid()
      ensures found <==> exists key :: key in contents && contents[key] == value
      ensures found ==> slot < slots.Length && slots[slot].Full?
      ensures found ==> slots[slot].key in contents && contents[slots[slot].key] == value
      ensures found ==> slots[slot].home == homeOf(slots[slot].key)
    {
      slot := 0;
      while slot < slots.Length
        invariant 0 <= slot <= slots.Length
        invariant forall i :: 0 <= i < slot && slots[i].Full? ==> slots[i].value != value
      {
        if slots[slot].Full? && slots[slot].value == value {
          assert slots[..][slot].Full?;
          return true, slot;
        }
        slot := slot + 1;
      }
      assert forall i :: 0 <= i < slots.Length ==> slots[..][i] == slots[i];
      return false, 0;
    }

    // insert adds the pair, or names the one reason why it cannot, in which case nothing changed.
    method Insert(key: K, value: nat, home: nat) returns (outcome: InsertOutcome)
      requires Valid() && home == homeOf(key)
      modifies this, slots
      ensures Valid()
      ensures outcome == if home >= slots.Length then InvalidHome
                         else if key in old(contents) then DuplicateKey
                         else if old(live) == slots.Length then IndexFull else Inserted
      ensures contents == if outcome == Inserted then old(contents)[key := value] else old(contents)
      ensures live == if outcome == Inserted then old(live) + 1 else old(live)
    {
      if home >= slots.Length { return InvalidHome; }
      hide Placed, Represents, CountFull, Passed;
      ghost var before := slots[..];
      var probe := 0;
      NonePassed(before, home, key);
      while probe < slots.Length
        invariant 0 <= probe <= slots.Length
        invariant slots[..] == before && Valid() && contents == old(contents) && live == old(live)
        invariant Passed(before, home, probe, key)
      {
        var slot := Probe(home, probe, slots.Length);
        if slots[slot].Empty? {
          SearchMiss(before, homeOf, contents, key, probe);
          InsertKeeps(before, homeOf, contents, key, value, probe);
          slots[slot] := Full(home, key, value);
          live := live + 1;
          contents := contents[key := value];
          assert slots[..] == before[slot := Full(home, key, value)];
          return Inserted;
        }
        if slots[slot].key == key { return DuplicateKey; }
        PassedNext(before, home, probe, key);
        probe := probe + 1;
      }
      SearchMiss(before, homeOf, contents, key, probe);
      return IndexFull;
    }

    // delete removes exactly the key: the scan restarts from every slot it vacates and ends
    // with unbroken probe paths, whether or not the table was full.
    method Delete(key: K, home: nat) returns (deleted: bool)
      requires Valid() && home == homeOf(key)
      modifies this, slots
      ensures Valid()
      ensures deleted <==> key in old(contents)
      ensures contents == old(contents) - {key}
      ensures live == if deleted then old(live) - 1 else old(live)
    {
      if home >= slots.Length { return false; }
      hide Placed, Represents, CountFull, Passed;
      var probe := 0;
      NonePassed(slots[..], home, key);
      while probe < slots.Length
        invariant 0 <= probe <= slots.Length
        invariant Valid() && contents == old(contents) && live == old(live)
        invariant Passed(slots[..], home, probe, key)
      {
        var hole := Probe(home, probe, slots.Length);
        if slots[hole].Empty? { break; }
        if slots[hole].key == key {
          ClearAndShift(hole);
          return true;
        }
        PassedNext(slots[..], home, probe, key);
        probe := probe + 1;
      }
      SearchMiss(slots[..], homeOf, contents, key, probe);
      return false;
    }

    // The rest of delete, once the key is found.
    method ClearAndShift(hole: nat)
      requires Valid() && hole < slots.Length && slots[hole].Full?
      modifies this, slots
      ensures Valid()
      ensures contents == old(contents) - {old(slots[hole].key)}
      ensures live == old(live) - 1
    {
      ghost var before, key := slots[..], slots[hole].key;
      ClearKeeps(before, homeOf, contents, hole);
      slots[hole] := Empty;
      assert slots[..] == before[hole := Empty];
      contents := contents - {key};
      ShiftBack(hole);
      live := live - 1;
    }

    // The second loop of delete, from the freshly cleared slot on.
    method ShiftBack(cleared: nat)
      requires OneHole(slots[..], cleared, homeOf, contents)
      modifies slots
      ensures Placed(slots[..], slots.Length, homeOf) && Represents(slots[..], contents)
      ensures CountFull(slots[..]) == old(CountFull(slots[..]))
    {
      hide Placed, Represents, CountFull, TotalDisplacement;
      var hole, scanned := cleared, 1;
      ghost var s, count := slots[..], CountFull(slots[..]);
      while scanned < slots.Length
        invariant s == slots[..]
        invariant OneHole(s, hole, homeOf, contents) && CountFull(s) == count
        invariant 1 <= scanned <= slots.Length && Scanned(s, hole, scanned)
        decreases TotalDisplacement(s, |s|), slots.Length - scanned
      {
        var slot := Probe(hole, scanned, slots.Length);
        if slots[slot].Empty? { break; }
        HomeInRange(s, homeOf, hole, slot);
        if Dist(slots[slot].home, hole, slots.Length) < Dist(slots[slot].home, slot, slots.Length) {
          MoveKeeps(s, homeOf, contents, hole, slot);
          MoveLowersDisplacement(s, hole, slot);
          slots[hole] := slots[slot];
          slots[slot] := Empty;
          s := s[hole := s[slot]][slot := Empty];
          hole := slot;
          scanned := 0;
        }
        scanned := scanned + 1;
      }
      ScanClosesHole(s, homeOf, hole, scanned);
    }
  }
}
