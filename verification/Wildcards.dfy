// Matching a pattern in which some items stand for any run of values, with one remembered
// wildcard to fall back to. The same facts serve characters in a segment and segments in a path.
module Wildcards {
  // A pattern matches when its values can be dealt out to its items in order: a wildcard takes
  // any run, possibly empty, and every other item takes one value it accepts.
  ghost predicate Matches<A(!new), B(!new)>(wild: A -> bool, one: (A, B) -> bool, p: seq<A>, v: seq<B>)
    decreases |p|
  {
    if p == [] then v == []
    else if wild(p[0]) then exists k: nat :: k <= |v| && Matches(wild, one, p[1..], v[k..])
    else v != [] && one(p[0], v[0]) && Matches(wild, one, p[1..], v[1..])
  }

  // The rest of a pattern against the rest of the values.
  ghost predicate Rest<A(!new), B(!new)>(wild: A -> bool, one: (A, B) -> bool, p: seq<A>, i: nat, v: seq<B>, j: nat) {
    i <= |p| && j <= |v| && Matches(wild, one, p[i..], v[j..])
  }

  // The rest of a pattern against some later rest of the values.
  ghost predicate Later<A(!new), B(!new)>(wild: A -> bool, one: (A, B) -> bool, p: seq<A>, i: nat, v: seq<B>, j: nat) {
    exists k: nat :: j <= k && Rest(wild, one, p, i, v, k)
  }

  lemma RestEnds<A(!new), B(!new)>(wild: A -> bool, one: (A, B) -> bool, p: seq<A>, v: seq<B>, j: nat)
    ensures Rest(wild, one, p, |p|, v, j) <==> j == |v|
  {
  }

  lemma RestWild<A(!new), B(!new)>(wild: A -> bool, one: (A, B) -> bool, p: seq<A>, i: nat, v: seq<B>, j: nat)
    requires i < |p| && wild(p[i])
    ensures Rest(wild, one, p, i, v, j) <==> Later(wild, one, p, i + 1, v, j)
  {
    assert p[i..][0] == p[i] && p[i..][1..] == p[i + 1..];
    if Rest(wild, one, p, i, v, j) {
      var k: nat :| k <= |v[j..]| && Matches(wild, one, p[i + 1..], v[j..][k..]);
      assert v[j..][k..] == v[j + k..];
      assert Rest(wild, one, p, i + 1, v, j + k);
    }
    if Later(wild, one, p, i + 1, v, j) {
      var k: nat :| j <= k && Rest(wild, one, p, i + 1, v, k);
      assert v[j..][k - j..] == v[k..];
    }
  }

  lemma RestOne<A(!new), B(!new)>(wild: A -> bool, one: (A, B) -> bool, p: seq<A>, i: nat, v: seq<B>, j: nat)
    requires i < |p| && !wild(p[i])
    ensures Rest(wild, one, p, i, v, j) <==> j < |v| && one(p[i], v[j]) && Rest(wild, one, p, i + 1, v, j + 1)
  {
    assert p[i..][0] == p[i] && p[i..][1..] == p[i + 1..];
    if j < |v| {
      assert v[j..][0] == v[j] && v[j..][1..] == v[j + 1..];
    }
  }

  // Items between the remembered wildcard and the current one each take exactly one value.
  lemma {:induction false} RestPlain<A(!new),
      B(!new)>(wild: A -> bool, one: (A, B) -> bool, p: seq<A>, i: nat, n: nat, v: seq<B>, j: nat)
    requires i <= n <= |p| && forall k :: i <= k < n ==> !wild(p[k])
    requires Rest(wild, one, p, i, v, j)
    ensures Rest(wild, one, p, n, v, j + (n - i))
    decreases n - i
  {
    hide Rest;
    if i < n {
      RestOne(wild, one, p, i, v, j);
      RestPlain(wild, one, p, i + 1, n, v, j + 1);
    }
  }

  // What is still possible: the rest matches here, or the remembered wildcard takes more.
  ghost predicate Open<A(!new), B(!new)>(wild: A -> bool, one: (A, B) -> bool, p: seq<A>, v: seq<B>, i: nat, j: nat,
                                         star: int, taken: nat) {
    Rest(wild, one, p, i, v, j) || (star >= 0 && Later(wild, one, p, star + 1, v, taken + 1))
  }

  // The remembered wildcard and the plain items matched since.
  ghost predicate Remembered<A(!new),
      B(!new)>(wild: A -> bool, p: seq<A>, v: seq<B>, i: nat, j: nat, star: int, taken: nat) {
    && i <= |p| && j <= |v|
    && (star >= 0 ==> star < i && wild(p[star]) && taken <= j && j - taken == i - star - 1 &&
                      forall k :: star < k < i ==> !wild(p[k]))
  }

  // Coming to a new wildcard, the old one is no longer needed.
  lemma NewWildcard<A(!new), B(!new)>(wild: A -> bool, one: (A, B) -> bool, p: seq<A>, v: seq<B>, i: nat, j: nat,
                                      star: int, taken: nat)
    requires Remembered(wild, p, v, i, j, star, taken) && i < |p| && wild(p[i])
    ensures Remembered(wild, p, v, i + 1, j, i, j)
    ensures Open(wild, one, p, v, i, j, star, taken) <==> Open(wild, one, p, v, i + 1, j, i, j)
  {
    hide Rest;
    RestWild(wild, one, p, i, v, j);
    if star >= 0 && !Rest(wild, one, p, i, v, j) && Open(wild, one, p, v, i, j, star, taken) {
      var k: nat :| taken + 1 <= k && Rest(wild, one, p, star + 1, v, k);
      RestPlain(wild, one, p, star + 1, i, v, k);
      RestWild(wild, one, p, i, v, k + (i - star - 1));
    }
  }

  lemma OneMore<A(!new), B(!new)>(wild: A -> bool, one: (A, B) -> bool, p: seq<A>, v: seq<B>, i: nat, j: nat,
                                  star: int, taken: nat)
    requires Remembered(wild, p, v, i, j, star, taken) && i < |p| && !wild(p[i]) && j < |v| && one(p[i], v[j])
    ensures Remembered(wild, p, v, i + 1, j + 1, star, taken)
    ensures Open(wild, one, p, v, i, j, star, taken) <==> Open(wild, one, p, v, i + 1, j + 1, star, taken)
  {
    hide Rest;
    RestOne(wild, one, p, i, v, j);
  }

  // At a mismatch the remembered wildcard takes one value more, or there is no match.
  lemma Mismatch<A(!new), B(!new)>(wild: A -> bool, one: (A, B) -> bool, p: seq<A>, v: seq<B>, i: nat, j: nat,
                                   star: int, taken: nat)
    requires Remembered(wild, p, v, i, j, star, taken) && j < |v|
    requires i < |p| ==> !wild(p[i]) && !one(p[i], v[j])
    ensures star < 0 ==> !Open(wild, one, p, v, i, j, star, taken)
    ensures star >= 0 ==> Remembered(wild, p, v, star + 1, taken + 1, star, taken + 1)
    ensures star >= 0 ==>
      (Open(wild, one, p, v, i, j, star, taken) <==> Open(wild, one, p, v, star + 1, taken + 1, star, taken + 1))
  {
    hide Rest;
    if i < |p| {
      RestOne(wild, one, p, i, v, j);
    } else {
      RestEnds(wild, one, p, v, j);
    }
  }

  // With the values used up, the rest of the pattern may only be wildcards, and no earlier
  // choice of the remembered wildcard could have done better.
  lemma AllTaken<A(!new), B(!new)>(wild: A -> bool, one: (A, B) -> bool, p: seq<A>, v: seq<B>, i: nat, star: int,
                                   taken: nat)
    requires Remembered(wild, p, v, i, |v|, star, taken)
    ensures Open(wild, one, p, v, i, |v|, star, taken) <==> forall k :: i <= k < |p| ==> wild(p[k])
  {
    WildTail(wild, one, p, v, i);
    if star >= 0 && Open(wild, one, p, v, i, |v|, star, taken) && !Rest(wild, one, p, i, v, |v|) {
      var k: nat :| taken + 1 <= k && Rest(wild, one, p, star + 1, v, k);
      RestPlain(wild, one, p, star + 1, i, v, k);
    }
  }

  lemma {:induction false} WildTail<A(!new),
      B(!new)>(wild: A -> bool, one: (A, B) -> bool, p: seq<A>, v: seq<B>, i: nat)
    requires i <= |p|
    ensures Rest(wild, one, p, i, v, |v|) <==> forall k :: i <= k < |p| ==> wild(p[k])
    decreases |p| - i
  {
    hide Rest;
    if i == |p| {
      RestEnds(wild, one, p, v, |v|);
    } else {
      WildTail(wild, one, p, v, i + 1);
      if wild(p[i]) {
        RestWild(wild, one, p, i, v, |v|);
        Beyond(wild, one, p, v, i + 1);
      } else {
        RestOne(wild, one, p, i, v, |v|);
      }
    }
  }

  lemma Beyond<A(!new), B(!new)>(wild: A -> bool, one: (A, B) -> bool, p: seq<A>, v: seq<B>, i: nat)
    ensures forall k: nat :: Rest(wild, one, p, i, v, k) ==> k <= |v|
  {
  }

  lemma Whole<A(!new), B(!new)>(wild: A -> bool, one: (A, B) -> bool, p: seq<A>, v: seq<B>)
    ensures Remembered(wild, p, v, 0, 0, -1, 0)
    ensures Open(wild, one, p, v, 0, 0, -1, 0) <==> Matches(wild, one, p, v)
  {
    assert p[0..] == p && v[0..] == v;
  }
}
