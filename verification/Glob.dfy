// Compiled globs against paths: `*` and `?` within a segment, `**` across segments, character
// classes, and case folding by orbits.
module Glob {
  import opened Wildcards

  // A Unicode scalar value.
  type Rune = int

  const SLASH: Rune := 0x2F

  datatype Range = Range(first: Rune, last: Rune)

  datatype Atom = Literal(scalar: Rune) | AnyScalar | AnyScalars | Class(negated: bool, ranges: seq<Range>)

  datatype Segment = Globstar | Atoms(atoms: seq<Atom>)

  datatype Glob = Glob(variants: seq<seq<Segment>>, fullPath: bool, ignoreCase: bool)

  // ---- Case folding ----

  // `fold` takes every scalar around a finite cycle of its case variants.
  ghost predicate FiniteOrbits(fold: Rune -> Rune) {
    forall r: Rune :: Returns(fold, r)
  }

  ghost predicate Returns(fold: Rune -> Rune, r: Rune) {
    exists n: nat :: n > 0 && Folded(fold, r, n) == r
  }

  // `n` folds of a scalar.
  ghost function Folded(fold: Rune -> Rune, r: Rune, n: nat): Rune {
    if n == 0 then r else fold(Folded(fold, r, n - 1))
  }

  ghost predicate SameOrbit(fold: Rune -> Rune, left: Rune, right: Rune) {
    exists n: nat :: Folded(fold, left, n) == right
  }

  lemma {:induction false} FoldedAdds(fold: Rune -> Rune, r: Rune, a: nat, b: nat)
    ensures Folded(fold, Folded(fold, r, a), b) == Folded(fold, r, a + b)
  {
    if b > 0 {
      FoldedAdds(fold, r, a, b - 1);
    }
  }

  // A cycle that has closed shows every scalar of the orbit.
  lemma {:induction false} CycleShowsAll(fold: Rune -> Rune, r: Rune, n: nat, k: nat)
    requires n > 0 && Folded(fold, r, n) == r
    ensures exists m: nat :: m < n && Folded(fold, r, m) == Folded(fold, r, k)
    decreases k
  {
    if k >= n {
      FoldedAdds(fold, r, n, k - n);
      CycleShowsAll(fold, r, n, k - n);
    }
  }

  // Orbits are the classes of an equivalence.
  lemma OrbitSymmetric(fold: Rune -> Rune, left: Rune, right: Rune)
    requires FiniteOrbits(fold) && SameOrbit(fold, left, right)
    ensures SameOrbit(fold, right, left)
  {
    var k: nat :| Folded(fold, left, k) == right;
    assert Returns(fold, left);
    var n: nat :| n > 0 && Folded(fold, left, n) == left;
    CycleShowsAll(fold, left, n, k);
    var m: nat :| m < n && Folded(fold, left, m) == right;
    FoldedAdds(fold, left, m, n - m);
  }

  method SameSimpleFoldOrbit(fold: Rune -> Rune, left: Rune, right: Rune) returns (same: bool)
    requires FiniteOrbits(fold)
    ensures same <==> SameOrbit(fold, left, right)
  {
    if left == right {
      assert Folded(fold, left, 0) == right;
      return true;
    }
    assert Returns(fold, left);
    ghost var n: nat :| n > 0 && Folded(fold, left, n) == left;
    ghost var m: nat := 1;
    var folded := fold(left);
    assert Folded(fold, left, 0) == left;
    while folded != left
      invariant 1 <= m <= n && folded == Folded(fold, left, m)
      invariant forall k: nat :: k < m ==> Folded(fold, left, k) != right
      decreases n - m
    {
      if folded == right {
        return true;
      }
      folded := fold(folded);
      m := m + 1;
    }
    forall k: nat ensures Folded(fold, left, k) != right {
      CycleShowsAll(fold, left, m, k);
    }
    return false;
  }

  // ---- One atom ----

  ghost predicate InRanges(ranges: seq<Range>, value: Rune) {
    exists k :: 0 <= k < |ranges| && ranges[k].first <= value <= ranges[k].last
  }

  ghost predicate ClassHolds(fold: Rune -> Rune, ranges: seq<Range>, value: Rune, ignoreCase: bool) {
    if ignoreCase then exists folded: Rune :: SameOrbit(fold, value, folded) && InRanges(ranges, folded)
    else InRanges(ranges, value)
  }

  // What one atom accepts: itself up to case, any scalar but the separator, or a class.
  ghost predicate Accepts(fold: Rune -> Rune, atom: Atom, value: Rune, ignoreCase: bool) {
    match atom
    case Literal(scalar) => value == scalar || (ignoreCase && SameOrbit(fold, value, scalar))
    case AnyScalar => value != SLASH
    case AnyScalars => false
    case Class(negated, ranges) => ClassHolds(fold, ranges, value, ignoreCase) != negated
  }

  method ClassContains(ranges: seq<Range>, value: Rune) returns (contains: bool)
    ensures contains <==> InRanges(ranges, value)
  {
    var k := 0;
    while k < |ranges|
      invariant 0 <= k <= |ranges| && forall j :: 0 <= j < k ==> !(ranges[j].first <= value <= ranges[j].last)
    {
      if ranges[k].first <= value <= ranges[k].last {
        return true;
      }
      k := k + 1;
    }
    return false;
  }

  // Whether some scalar of the value's orbit is in the class, the value itself excepted.
  method OrbitContains(fold: Rune -> Rune, ranges: seq<Range>, value: Rune) returns (contains: bool)
    requires FiniteOrbits(fold) && !InRanges(ranges, value)
    ensures contains <==> ClassHolds(fold, ranges, value, true)
  {
    assert Returns(fold, value);
    ghost var n: nat :| n > 0 && Folded(fold, value, n) == value;
    ghost var m: nat := 1;
    var folded := fold(value);
    assert Folded(fold, value, 0) == value;
    while folded != value
      invariant 1 <= m <= n && folded == Folded(fold, value, m)
      invariant forall k: nat :: k < m ==> !InRanges(ranges, Folded(fold, value, k))
      decreases n - m
    {
      contains := ClassContains(ranges, folded);
      if contains {
        return;
      }
      folded := fold(folded);
      m := m + 1;
    }
    forall k: nat ensures !InRanges(ranges, Folded(fold, value, k)) {
      CycleShowsAll(fold, value, m, k);
    }
    return false;
  }

  method MatchGlobAtom(fold: Rune -> Rune, atom: Atom, value: Rune, ignoreCase: bool) returns (matched: bool)
    requires FiniteOrbits(fold)
    ensures matched <==> Accepts(fold, atom, value, ignoreCase)
  {
    match atom {
      case Literal(scalar) =>
        if value == scalar || !ignoreCase {
          return value == scalar;
        }
        matched := SameSimpleFoldOrbit(fold, value, scalar);
      case AnyScalar =>
        return value != SLASH;
      case AnyScalars =>
        return false;
      case Class(negated, ranges) =>
        matched := ClassContains(ranges, value);
        if ignoreCase {
          if matched {
            assert Folded(fold, value, 0) == value;
          } else {
            matched := OrbitContains(fold, ranges, value);
          }
        }
        if negated {
          matched := !matched;
        }
    }
  }

  // ---- A segment ----

  ghost function AtomAccepts(fold: Rune -> Rune, ignoreCase: bool): (Atom, Rune) -> bool {
    (atom: Atom, value: Rune) => Accepts(fold, atom, value, ignoreCase)
  }

  ghost function IsStar(): Atom -> bool {
    (atom: Atom) => atom.AnyScalars?
  }

  // `*` stands for any run of scalars; everything else for one.
  ghost predicate SegmentMatches(fold: Rune -> Rune, segment: Segment, value: seq<Rune>, ignoreCase: bool) {
    segment.Atoms? && Matches(IsStar(), AtomAccepts(fold, ignoreCase), segment.atoms, value)
  }

  method MatchGlobSegment(fold: Rune -> Rune, segment: Segment, characters: seq<Rune>, ignoreCase: bool)
    returns (matched: bool)
    requires FiniteOrbits(fold) && segment.Atoms?
    ensures matched <==> SegmentMatches(fold, segment, characters, ignoreCase)
  {
    hide Accepts, Matches, Open;
    var atoms := segment.atoms;
    ghost var wild, one := IsStar(), AtomAccepts(fold, ignoreCase);
    var patternIndex, valueIndex: nat := 0, 0;
    var starIndex, starValue: nat := -1, 0;
    Whole(wild, one, atoms, characters);
    while valueIndex < |characters|
      invariant patternIndex <= |atoms| && valueIndex <= |characters| && starIndex < |atoms|
                && starValue <= |characters|
      invariant Remembered(wild, atoms, characters, patternIndex, valueIndex, starIndex, starValue)
      invariant Matches(wild, one, atoms, characters) <==>
                Open(wild, one, atoms, characters, patternIndex, valueIndex, starIndex, starValue)
      decreases |atoms| - starIndex, |characters| - starValue, |atoms| - patternIndex
    {
      if patternIndex < |atoms| && atoms[patternIndex].AnyScalars? {
        NewWildcard(wild, one, atoms, characters, patternIndex, valueIndex, starIndex, starValue);
        starIndex, starValue := patternIndex, valueIndex;
        patternIndex := patternIndex + 1;
        continue;
      }
      var accepted := false;
      if patternIndex < |atoms| {
        accepted := MatchGlobAtom(fold, atoms[patternIndex], characters[valueIndex], ignoreCase);
      }
      if accepted {
        OneMore(wild, one, atoms, characters, patternIndex, valueIndex, starIndex, starValue);
        patternIndex, valueIndex := patternIndex + 1, valueIndex + 1;
        continue;
      }
      Mismatch(wild, one, atoms, characters, patternIndex, valueIndex, starIndex, starValue);
      if starIndex >= 0 {
        starValue := starValue + 1;
        valueIndex, patternIndex := starValue, starIndex + 1;
        continue;
      }
      return false;
    }
    AllTaken(wild, one, atoms, characters, patternIndex, starIndex, starValue);
    while patternIndex < |atoms| && atoms[patternIndex].AnyScalars?
      invariant patternIndex <= |atoms|
      invariant Matches(wild, one, atoms, characters) <==> forall k :: patternIndex <= k < |atoms| ==> wild(atoms[k])
    {
      patternIndex := patternIndex + 1;
    }
    return patternIndex == |atoms|;
  }

  // ---- A path ----

  ghost function SegmentAccepts(fold: Rune -> Rune, ignoreCase: bool): (Segment, seq<Rune>) -> bool {
    (segment: Segment, part: seq<Rune>) => SegmentMatches(fold, segment, part, ignoreCase)
  }

  ghost function IsGlobstar(): Segment -> bool {
    (segment: Segment) => segment.Globstar?
  }

  // `**` stands for any number of whole segments; every other segment matches one.
  ghost predicate VariantMatches(fold: Rune -> Rune, variant: seq<Segment>, path: seq<seq<Rune>>, ignoreCase: bool) {
    Matches(IsGlobstar(), SegmentAccepts(fold, ignoreCase), variant, path)
  }

  method MatchGlobVariant(fold: Rune -> Rune, variant: seq<Segment>, path: seq<seq<Rune>>, ignoreCase: bool)
    returns (matched: bool)
    requires FiniteOrbits(fold)
    ensures matched <==> VariantMatches(fold, variant, path, ignoreCase)
  {
    hide SegmentMatches, Matches, Open;
    ghost var wild, one := IsGlobstar(), SegmentAccepts(fold, ignoreCase);
    var patternIndex, pathIndex: nat := 0, 0;
    var globstarIndex, globstarPath: nat := -1, 0;
    Whole(wild, one, variant, path);
    while pathIndex < |path|
      invariant patternIndex <= |variant| && pathIndex <= |path| && globstarIndex < |variant| && globstarPath <= |path|
      invariant Remembered(wild, variant, path, patternIndex, pathIndex, globstarIndex, globstarPath)
      invariant Matches(wild, one, variant, path) <==>
                Open(wild, one, variant, path, patternIndex, pathIndex, globstarIndex, globstarPath)
      decreases |variant| - globstarIndex, |path| - globstarPath, |variant| - patternIndex
    {
      if patternIndex < |variant| && variant[patternIndex].Globstar? {
        NewWildcard(wild, one, variant, path, patternIndex, pathIndex, globstarIndex, globstarPath);
        globstarIndex, globstarPath := patternIndex, pathIndex;
        patternIndex := patternIndex + 1;
        continue;
      }
      var accepted := false;
      if patternIndex < |variant| {
        accepted := MatchGlobSegment(fold, variant[patternIndex], path[pathIndex], ignoreCase);
      }
      if accepted {
        OneMore(wild, one, variant, path, patternIndex, pathIndex, globstarIndex, globstarPath);
        patternIndex, pathIndex := patternIndex + 1, pathIndex + 1;
        continue;
      }
      Mismatch(wild, one, variant, path, patternIndex, pathIndex, globstarIndex, globstarPath);
      if globstarIndex >= 0 {
        globstarPath := globstarPath + 1;
        pathIndex, patternIndex := globstarPath, globstarIndex + 1;
        continue;
      }
      return false;
    }
    AllTaken(wild, one, variant, path, patternIndex, globstarIndex, globstarPath);
    while patternIndex < |variant| && variant[patternIndex].Globstar?
      invariant patternIndex <= |variant|
      invariant Matches(wild, one, variant, path) <==> forall k :: patternIndex <= k < |variant| ==> wild(variant[k])
    {
      patternIndex := patternIndex + 1;
    }
    return patternIndex == |variant|;
  }

  // ---- Paths as text ----

  // The text cut at every separator; the parts never contain one.
  function Split(path: seq<Rune>): (parts: seq<seq<Rune>>)
    ensures |parts| > 0
    ensures forall k, j :: 0 <= k < |parts| && 0 <= j < |parts[k]| ==> parts[k][j] != SLASH
  {
    if path == [] then [[]]
    else
      var rest := Split(path[1..]);
      if path[0] == SLASH then [[]] + rest else [[path[0]] + rest[0]] + rest[1..]
  }

  function Join(parts: seq<seq<Rune>>): seq<Rune>
    requires |parts| > 0
  {
    if |parts| == 1 then parts[0] else parts[0] + [SLASH] + Join(parts[1..])
  }

  // Cutting loses nothing.
  lemma {:induction false} SplitJoins(path: seq<Rune>)
    ensures Join(Split(path)) == path
  {
    if path != [] {
      var rest := Split(path[1..]);
      SplitJoins(path[1..]);
      assert path == [path[0]] + path[1..];
      if path[0] == SLASH {
        assert ([[]] + rest)[1..] == rest;
      } else {
        assert ([[path[0]] + rest[0]] + rest[1..])[1..] == rest[1..];
        if |rest| > 1 {
          assert [path[0]] + (rest[0] + [SLASH] + Join(rest[1..])) == [path[0]] + rest[0] + [SLASH] + Join(rest[1..]);
        }
      }
    }
  }

  method LastSlash(path: seq<Rune>) returns (slash: int)
    ensures -1 <= slash < |path|
    ensures slash >= 0 ==> path[slash] == SLASH
    ensures forall k :: slash < k < |path| ==> path[k] != SLASH
  {
    slash := |path| - 1;
    while slash >= 0 && path[slash] != SLASH
      invariant -1 <= slash < |path| && forall k :: slash < k < |path| ==> path[k] != SLASH
    {
      slash := slash - 1;
    }
  }

  lemma {:induction false} NoSlash(path: seq<Rune>)
    requires forall k :: 0 <= k < |path| ==> path[k] != SLASH
    ensures Split(path) == [path]
  {
    if path != [] {
      NoSlash(path[1..]);
      assert [path[0]] + path[1..] == path;
    }
  }

  // What follows the last separator is the last part, and has no separator of its own.
  lemma {:induction false} LastPart(path: seq<Rune>, slash: int)
    requires -1 <= slash < |path| && (slash >= 0 ==> path[slash] == SLASH)
    requires forall k :: slash < k < |path| ==> path[k] != SLASH
    ensures
      var parts := Split(path);
      path[slash + 1..] == parts[|parts| - 1] && (slash >= 0 ==> |parts| > 1)
    ensures Split(path[slash + 1..]) == [path[slash + 1..]]
    decreases |path|
  {
    if slash == -1 {
      assert path[0..] == path;
      NoSlash(path);
    } else {
      assert path[1..][slash..] == path[slash + 1..];
      LastPart(path[1..], slash - 1);
    }
  }

  ghost predicate SomeVariant(fold: Rune -> Rune, glob: Glob, parts: seq<seq<Rune>>) {
    exists k :: 0 <= k < |glob.variants| && VariantMatches(fold, glob.variants[k], parts, glob.ignoreCase)
  }

  // The parts of a path that a glob is held against: all of them when it was written with a
  // separator, and the last one alone otherwise.
  function Target(glob: Glob, path: seq<Rune>): seq<seq<Rune>> {
    var parts := Split(path);
    if glob.fullPath then parts else [parts[|parts| - 1]]
  }

  // A glob holds of a path when one of its variants matches the target.
  ghost predicate Holds(fold: Rune -> Rune, glob: Glob, path: seq<Rune>) {
    path != [] && SomeVariant(fold, glob, Target(glob, path))
  }

  method Match(fold: Rune -> Rune, glob: Glob, path: seq<Rune>) returns (matched: bool)
    requires FiniteOrbits(fold)
    ensures matched <==> Holds(fold, glob, path)
  {
    hide SomeVariant, Split, FiniteOrbits;
    if path == [] {
      return false;
    }
    var target := path;
    if !glob.fullPath {
      var slash := LastSlash(path);
      if slash >= 0 {
        target := path[slash + 1..];
      }
      assert path[0..] == path;
      LastPart(path, slash);
    }
    var parts := Split(target);
    matched := MatchAny(fold, glob, parts);
  }

  method MatchAny(fold: Rune -> Rune, glob: Glob, parts: seq<seq<Rune>>) returns (matched: bool)
    requires FiniteOrbits(fold)
    ensures matched <==> SomeVariant(fold, glob, parts)
  {
    hide VariantMatches;
    var k := 0;
    while k < |glob.variants|
      invariant 0 <= k <= |glob.variants|
      invariant forall j :: 0 <= j < k ==> !VariantMatches(fold, glob.variants[j], parts, glob.ignoreCase)
    {
      matched := MatchGlobVariant(fold, glob.variants[k], parts, glob.ignoreCase);
      if matched {
        return;
      }
      k := k + 1;
    }
    return false;
  }
}
