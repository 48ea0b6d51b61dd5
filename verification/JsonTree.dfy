// The syntax tree of a JSON text: every value with the span that spells it. A text has a tree
// exactly when the grammar accepts it, and then it has only one.
module JsonTree {
  import opened Utf8
  import opened JsonTypes
  import opened JsonGrammar
  import opened JsonPending
  import opened JsonNumber
  import opened JsonString

  // A member of an object: the span of its key and its value.
  datatype Field = Field(key: nat, keyEnd: nat, value: Tree)

  datatype Tree =
    | Scalar(scalar: ValueKind, start: nat, end: nat)
    | Record(start: nat, end: nat, fields: seq<Field>)
    | List(start: nat, end: nat, items: seq<Tree>)
  {
    function Kind(): ValueKind {
      match this
      case Scalar(kind, _, _) => kind
      case Record(_, _, _) => ObjectKind
      case List(_, _, _) => ArrayKind
    }

    function Width(): nat {
      match this
      case Scalar(_, _, _) => 0
      case Record(_, _, fields) => |fields|
      case List(_, _, items) => |items|
    }
  }

  ghost predicate ScalarSpells(raw: seq<Byte>, kind: ValueKind, i: nat, j: nat) {
    match kind
    case StringKind => String(raw, i, j)
    case NumberKind => Number(raw, i, j)
    case TrueKind => Spelled(raw, i, j, TRUE_WORD)
    case FalseKind => Spelled(raw, i, j, FALSE_WORD)
    case NullKind => Spelled(raw, i, j, NULL_WORD)
    case _ => false
  }

  // The bytes of the tree's own span spell it.
  ghost predicate Spells(raw: seq<Byte>, t: Tree)
    decreases t, t.Width() + 1, 0
  {
    t.start < t.end <= |raw| &&
    match t
    case Scalar(kind, i, j) => ScalarSpells(raw, kind, i, j)
    case Record(i, _, _) => raw[i] == 0x7B && FirstFieldFrom(raw, t, i + 1)
    case List(i, _, _) => raw[i] == 0x5B && FirstItemFrom(raw, t, i + 1)
  }

  // What is left of an object from `i` on: everything, the fields from number `k` on, what
  // follows a key, its value and the rest, or what follows the first `n` fields.
  ghost predicate FirstFieldFrom(raw: seq<Byte>, t: Tree, i: nat)
    requires t.Record?
    decreases t, t.Width(), 5
  {
    if t.fields == [] then
      t.end > 0 && t.end <= |raw| && Space(raw, i, t.end - 1) && raw[t.end - 1] == 0x7D
    else FieldsFrom(raw, t, 0, i)
  }

  ghost predicate FieldsFrom(raw: seq<Byte>, t: Tree, k: nat, i: nat)
    requires t.Record? && k < |t.fields|
    decreases t, |t.fields| - k, 3
  {
    var f := t.fields[k];
    Space(raw, i, f.key) && String(raw, f.key, f.keyEnd) && ColonFrom(raw, t, k, f.keyEnd)
  }

  ghost predicate ColonFrom(raw: seq<Byte>, t: Tree, k: nat, i: nat)
    requires t.Record? && k < |t.fields|
    decreases t, |t.fields| - k, 2
  {
    exists c: nat :: Space(raw, i, c) && c < |raw| && raw[c] == 0x3A && FieldValueFrom(raw, t, k, c + 1)
  }

  ghost predicate FieldValueFrom(raw: seq<Byte>, t: Tree, k: nat, i: nat)
    requires t.Record? && k < |t.fields|
    decreases t, |t.fields| - k, 1
  {
    var v := t.fields[k].value;
    Space(raw, i, v.start) && Spells(raw, v) && AfterFields(raw, t, k + 1, v.end)
  }

  ghost predicate AfterFields(raw: seq<Byte>, t: Tree, n: nat, i: nat)
    requires t.Record? && n <= |t.fields|
    decreases t, |t.fields| - n, 4
  {
    exists k: nat :: Space(raw, i, k) && k < |raw| &&
      if n == |t.fields| then raw[k] == 0x7D && t.end == k + 1 else raw[k] == 0x2C && FieldsFrom(raw, t, n, k + 1)
  }

  // The same for an array.
  ghost predicate FirstItemFrom(raw: seq<Byte>, t: Tree, i: nat)
    requires t.List?
    decreases t, t.Width(), 5
  {
    if t.items == [] then
      t.end > 0 && t.end <= |raw| && Space(raw, i, t.end - 1) && raw[t.end - 1] == 0x5D
    else ItemsFrom(raw, t, 0, i)
  }

  ghost predicate ItemsFrom(raw: seq<Byte>, t: Tree, k: nat, i: nat)
    requires t.List? && k < |t.items|
    decreases t, |t.items| - k, 1
  {
    var v := t.items[k];
    Space(raw, i, v.start) && Spells(raw, v) && AfterItems(raw, t, k + 1, v.end)
  }

  ghost predicate AfterItems(raw: seq<Byte>, t: Tree, n: nat, i: nat)
    requires t.List? && n <= |t.items|
    decreases t, |t.items| - n, 4
  {
    exists k: nat :: Space(raw, i, k) && k < |raw| &&
      if n == |t.items| then raw[k] == 0x5D && t.end == k + 1 else raw[k] == 0x2C && ItemsFrom(raw, t, n, k + 1)
  }

  // The tree of a whole text.
  ghost predicate Parses(raw: seq<Byte>, t: Tree) {
    Space(raw, 0, t.start) && Spells(raw, t) && Space(raw, t.end, |raw|)
  }

  // ---- Every JSON text has a tree ----

  lemma {:induction false} TreeOf(raw: seq<Byte>, i: nat, j: nat) returns (t: Tree)
    requires Value(raw, i, j)
    ensures Spells(raw, t) && t.start == i && t.end == j
    decreases j - i, 2
  {
    hide Members, Elements, FieldsAre, ItemsAre, FieldsFrom, ItemsFrom, Unsigned, Chars;
    if Object(raw, i, j) {
      if Space(raw, i + 1, j - 1) {
        t := Record(i, j, []);
      } else {
        var fields := FieldsOf(raw, i + 1, j - 1);
        t := Record(i, j, fields);
        FieldsNotNone(raw, fields, i + 1, j - 1);
        FieldsSpelled(raw, t, 0, i + 1);
      }
    } else if Array(raw, i, j) {
      if Space(raw, i + 1, j - 1) {
        t := List(i, j, []);
      } else {
        var items := ItemsOf(raw, i + 1, j - 1);
        t := List(i, j, items);
        ItemsNotNone(raw, items, i + 1, j - 1);
        ItemsSpelled(raw, t, 0, i + 1);
      }
    } else {
      var kind := if String(raw, i, j) then StringKind else if Number(raw, i, j) then NumberKind
        else if Spelled(raw, i, j, TRUE_WORD) then TrueKind
        else if Spelled(raw, i, j, FALSE_WORD) then FalseKind else NullKind;
      t := Scalar(kind, i, j);
    }
  }

  // A list of fields without the object around it.
  ghost predicate FieldsAre(raw: seq<Byte>, fields: seq<Field>, i: nat, j: nat)
    decreases |fields|
  {
    fields != [] && FieldIs(raw, fields[0], i) &&
    exists k: nat :: Space(raw, fields[0].value.end, k) && k <= j <= |raw| &&
      if |fields| == 1 then k == j else k < j && raw[k] == 0x2C && FieldsAre(raw, fields[1..], k + 1, j)
  }

  ghost predicate FieldIs(raw: seq<Byte>, f: Field, i: nat) {
    Space(raw, i, f.key) && String(raw, f.key, f.keyEnd) && Spells(raw, f.value) &&
    exists c: nat :: Space(raw, f.keyEnd, c) && c < |raw| && raw[c] == 0x3A && Space(raw, c + 1, f.value.start)
  }

  lemma FieldsNotNone(raw: seq<Byte>, fields: seq<Field>, i: nat, j: nat)
    requires FieldsAre(raw, fields, i, j)
    ensures fields != [] && fields[0..] == fields
  {
  }

  lemma ItemsNotNone(raw: seq<Byte>, items: seq<Tree>, i: nat, j: nat)
    requires ItemsAre(raw, items, i, j)
    ensures items != [] && items[0..] == items
  {
  }

  lemma FieldsMore(raw: seq<Byte>, f: Field, rest: seq<Field>, i: nat, k: nat, j: nat)
    requires FieldIs(raw, f, i) && Space(raw, f.value.end, k)
    requires k <= j <= |raw|
    requires if rest == [] then k == j else k < j && raw[k] == 0x2C && FieldsAre(raw, rest, k + 1, j)
    ensures FieldsAre(raw, [f] + rest, i, j)
  {
    hide FieldIs;
    assert ([f] + rest)[1..] == rest;
  }

  lemma MembersSplit(raw: seq<Byte>, i: nat, j: nat) returns (n: nat)
    requires Members(raw, i, j)
    ensures i < n <= j <= |raw| && Member(raw, i, n)
    ensures n == j || (raw[n] == 0x2C && Members(raw, n + 1, j))
  {
    hide Member;
    if Member(raw, i, j) {
      n := j;
    } else {
      n :| i < n < j && Member(raw, i, n) && raw[n] == 0x2C && Members(raw, n + 1, j);
    }
  }

  lemma ElementSpan(raw: seq<Byte>, i: nat, j: nat) returns (v: nat, e: nat)
    requires Element(raw, i, j)
    ensures Space(raw, i, v) && Space(raw, e, j) && v < e && Value(raw, v, e)
  {
    hide Value;
    v, e :| Space(raw, i, v) && Space(raw, e, j) && v < e && Value(raw, v, e);
  }

  lemma {:induction false} FieldsOf(raw: seq<Byte>, i: nat, j: nat) returns (fields: seq<Field>)
    requires Members(raw, i, j)
    ensures FieldsAre(raw, fields, i, j)
    decreases j - i, 5
  {
    hide Spells, Member, Members, FieldsAre, FieldIs;
    var n := MembersSplit(raw, i, j);
    var f := FieldOf(raw, i, n);
    var rest := [];
    if n < j {
      rest := FieldsOf(raw, n + 1, j);
      FieldsNotNone(raw, rest, n + 1, j);
    }
    FieldsMore(raw, f, rest, i, n, j);
    fields := [f] + rest;
  }

  lemma {:induction false} FieldOf(raw: seq<Byte>, i: nat, j: nat) returns (f: Field)
    requires Member(raw, i, j)
    ensures FieldIs(raw, f, i) && Space(raw, f.value.end, j)
    decreases j - i, 4
  {
    hide Spells, Element, Value, Chars;
    var a: nat, b: nat, c: nat :|
      Space(raw, i, a) && String(raw, a, b) && Space(raw, b, c) && c < j && raw[c] == 0x3A && Element(raw, c + 1, j);
    var v, e := ElementSpan(raw, c + 1, j);
    var value := TreeOf(raw, v, e);
    f := Field(a, b, value);
  }

  lemma {:induction false} FieldsSpelled(raw: seq<Byte>, t: Tree, k: nat, i: nat)
    requires t.Record? && k < |t.fields| && 0 < t.end <= |raw| && raw[t.end - 1] == 0x7D
    requires FieldsAre(raw, t.fields[k..], i, t.end - 1)
    ensures FieldsFrom(raw, t, k, i)
    decreases |t.fields| - k
  {
    hide Spells, String;
    var fields := t.fields[k..];
    assert fields[0] == t.fields[k];
    var f := t.fields[k];
    var n: nat :| Space(raw, f.value.end, n) && n <= t.end - 1 &&
      if |fields| == 1 then n == t.end - 1
        else n < t.end - 1 && raw[n] == 0x2C && FieldsAre(raw, fields[1..], n + 1, t.end - 1);
    if |fields| > 1 {
      assert fields[1..] == t.fields[k + 1..];
      FieldsSpelled(raw, t, k + 1, n + 1);
    }
    assert AfterFields(raw, t, k + 1, f.value.end);
    var c: nat :| Space(raw, f.keyEnd, c) && c < |raw| && raw[c] == 0x3A && Space(raw, c + 1, f.value.start);
    assert FieldValueFrom(raw, t, k, c + 1);
    assert ColonFrom(raw, t, k, f.keyEnd);
  }

  ghost predicate ItemsAre(raw: seq<Byte>, items: seq<Tree>, i: nat, j: nat)
    decreases |items|
  {
    items != [] && Space(raw, i, items[0].start) && Spells(raw, items[0]) &&
    exists k: nat :: Space(raw, items[0].end, k) && k <= j <= |raw| &&
      if |items| == 1 then k == j else k < j && raw[k] == 0x2C && ItemsAre(raw, items[1..], k + 1, j)
  }

  lemma {:induction false} ItemsOf(raw: seq<Byte>, i: nat, j: nat) returns (items: seq<Tree>)
    requires Elements(raw, i, j)
    ensures ItemsAre(raw, items, i, j)
    decreases j - i, 5
  {
    hide Spells, Element, Value, ItemsAre;
    ElementsSplit(raw, i, j);
    var n: nat :| i < n <= j && Element(raw, i, n) && (n == j || (raw[n] == 0x2C && Elements(raw, n + 1, j)));
    var v, e := ElementSpan(raw, i, n);
    var value := TreeOf(raw, v, e);
    var rest := [];
    if n < j {
      rest := ItemsOf(raw, n + 1, j);
      ItemsNotNone(raw, rest, n + 1, j);
    }
    ItemsMore(raw, value, rest, i, n, j);
    items := [value] + rest;
  }

  lemma ItemsMore(raw: seq<Byte>, v: Tree, rest: seq<Tree>, i: nat, k: nat, j: nat)
    requires Space(raw, i, v.start) && Spells(raw, v) && Space(raw, v.end, k)
    requires k <= j <= |raw|
    requires if rest == [] then k == j else k < j && raw[k] == 0x2C && ItemsAre(raw, rest, k + 1, j)
    ensures ItemsAre(raw, [v] + rest, i, j)
  {
    hide Spells;
    assert ([v] + rest)[1..] == rest;
  }

  lemma {:induction false} ItemsSpelled(raw: seq<Byte>, t: Tree, k: nat, i: nat)
    requires t.List? && k < |t.items| && 0 < t.end <= |raw| && raw[t.end - 1] == 0x5D
    requires ItemsAre(raw, t.items[k..], i, t.end - 1)
    ensures ItemsFrom(raw, t, k, i)
    decreases |t.items| - k
  {
    hide Spells;
    var items := t.items[k..];
    assert items[0] == t.items[k];
    var n: nat :| Space(raw, items[0].end, n) && n <= t.end - 1 &&
      if |items| == 1 then n == t.end - 1
        else n < t.end - 1 && raw[n] == 0x2C && ItemsAre(raw, items[1..], n + 1, t.end - 1);
    if |items| > 1 {
      assert items[1..] == t.items[k + 1..];
      ItemsSpelled(raw, t, k + 1, n + 1);
    }
    assert AfterItems(raw, t, k + 1, t.items[k].end);
  }

  // ---- Every tree is a value of the grammar ----

  lemma {:induction false} SpellsValue(raw: seq<Byte>, t: Tree)
    requires Spells(raw, t)
    ensures Value(raw, t.start, t.end)
    decreases t, t.Width() + 1, 0
  {
    match t
    case Scalar(kind, _, _) =>
    case Record(i, _, fields) =>
      if fields != [] {
        FieldsMembers(raw, t, 0, i + 1);
      }
      assert Object(raw, i, t.end);
    case List(i, _, items) =>
      if items != [] {
        ItemsElements(raw, t, 0, i + 1);
      }
      assert Array(raw, i, t.end);
  }

  lemma ElementMade(raw: seq<Byte>, i: nat, v: nat, e: nat, j: nat)
    requires Space(raw, i, v) && v < e && Value(raw, v, e) && Space(raw, e, j)
    ensures Element(raw, i, j)
  {
    hide Value;
  }

  lemma MemberMade(raw: seq<Byte>, i: nat, a: nat, b: nat, c: nat, j: nat)
    requires Space(raw, i, a) && String(raw, a, b) && Space(raw, b, c) && c < j <= |raw| && raw[c] == 0x3A
    requires i < j && Element(raw, c + 1, j)
    ensures Member(raw, i, j)
  {
    hide Element, String;
  }

  lemma NextField(raw: seq<Byte>, t: Tree, n: nat, i: nat) returns (k: nat)
    requires t.Record? && n <= |t.fields| && AfterFields(raw, t, n, i)
    ensures Space(raw, i, k) && k < |raw|
    ensures if n == |t.fields| then raw[k] == 0x7D && t.end == k + 1 else raw[k] == 0x2C && FieldsFrom(raw, t, n, k + 1)
  {
    hide FieldsFrom;
    k :| Space(raw, i, k) && k < |raw| &&
      if n == |t.fields| then raw[k] == 0x7D && t.end == k + 1 else raw[k] == 0x2C && FieldsFrom(raw, t, n, k + 1);
  }

  lemma NextItem(raw: seq<Byte>, t: Tree, n: nat, i: nat) returns (k: nat)
    requires t.List? && n <= |t.items| && AfterItems(raw, t, n, i)
    ensures Space(raw, i, k) && k < |raw|
    ensures if n == |t.items| then raw[k] == 0x5D && t.end == k + 1 else raw[k] == 0x2C && ItemsFrom(raw, t, n, k + 1)
  {
    hide ItemsFrom;
    k :| Space(raw, i, k) && k < |raw| &&
      if n == |t.items| then raw[k] == 0x5D && t.end == k + 1 else raw[k] == 0x2C && ItemsFrom(raw, t, n, k + 1);
  }

  lemma {:induction false} FieldsMembers(raw: seq<Byte>, t: Tree, k: nat, i: nat)
    requires t.Record? && k < |t.fields| && FieldsFrom(raw, t, k, i)
    ensures i < t.end <= |raw| && raw[t.end - 1] == 0x7D && Members(raw, i, t.end - 1)
    decreases t, |t.fields| - k, 3
  {
    hide Spells, Value, Element, Member, AfterFields, String;
    var f := t.fields[k];
    var c: nat :| Space(raw, f.keyEnd, c) && c < |raw| && raw[c] == 0x3A && FieldValueFrom(raw, t, k, c + 1);
    SpellsValue(raw, f.value);
    var n := NextField(raw, t, k + 1, f.value.end);
    ValueProper(raw, f.value.start, f.value.end);
    ElementMade(raw, c + 1, f.value.start, f.value.end, n);
    KeyAdvances(raw, f.key, f.keyEnd);
    MemberMade(raw, i, f.key, f.keyEnd, c, n);
    if k + 1 < |t.fields| {
      FieldsMembers(raw, t, k + 1, n + 1);
    }
  }

  lemma {:induction false} ItemsElements(raw: seq<Byte>, t: Tree, k: nat, i: nat)
    requires t.List? && k < |t.items| && ItemsFrom(raw, t, k, i)
    ensures i < t.end <= |raw| && raw[t.end - 1] == 0x5D && Elements(raw, i, t.end - 1)
    decreases t, |t.items| - k, 3
  {
    hide Spells, Value, AfterItems;
    var v := t.items[k];
    SpellsValue(raw, v);
    var n := NextItem(raw, t, k + 1, v.end);
    ValueProper(raw, v.start, v.end);
    ElementMade(raw, i, v.start, v.end, n);
    if k + 1 < |t.items| {
      ItemsElements(raw, t, k + 1, n + 1);
    }
  }

  // A text is JSON exactly when it has a tree.
  lemma JsonHasTree(raw: seq<Byte>)
    ensures IsJson(raw) <==> exists t: Tree :: Parses(raw, t)
  {
    hide Spells, Value;
    if IsJson(raw) {
      var a: nat, b: nat :| Space(raw, 0, a) && Space(raw, b, |raw|) && a < b && Value(raw, a, b);
      var t := TreeOf(raw, a, b);
      assert Parses(raw, t);
    }
    if exists t: Tree :: Parses(raw, t) {
      var t: Tree :| Parses(raw, t);
      SpellsValue(raw, t);
      ValueProper(raw, t.start, t.end);
    }
  }

  // ---- A text has one tree ----

  lemma SpaceStops(raw: seq<Byte>, i: nat, a: nat, b: nat)
    requires Space(raw, i, a) && Space(raw, i, b) && Blocked(raw, a) && Blocked(raw, b)
    ensures a == b
  {
  }

  lemma SpellsStart(raw: seq<Byte>, t: Tree)
    requires Spells(raw, t)
    ensures t.start < t.end <= |raw| && StartsValue(raw[t.start])
    ensures raw[t.start] == 0x7B <==> t.Record?
    ensures raw[t.start] == 0x5B <==> t.List?
    ensures raw[t.start] == 0x22 <==> t.Kind() == StringKind
    ensures raw[t.start] == 0x2D || IsDigit(raw[t.start]) <==> t.Kind() == NumberKind
    ensures raw[t.start] == 0x74 <==> t.Kind() == TrueKind
    ensures raw[t.start] == 0x66 <==> t.Kind() == FalseKind
    ensures raw[t.start] == 0x6E <==> t.Kind() == NullKind
  {
    hide FirstFieldFrom, FirstItemFrom, Number, Chars;
    if t.Scalar? {
      NumberStart(raw, t.start, t.end);
      if t.scalar == TrueKind || t.scalar == FalseKind || t.scalar == NullKind {
        assert raw[t.start..t.end][0] == raw[t.start];
      }
    }
  }

  // What follows a value inside a container delimits it.
  lemma AfterDelimits(raw: seq<Byte>, t: Tree, n: nat, i: nat)
    ensures t.Record? && n <= |t.fields| && AfterFields(raw, t, n, i) ==> Delimited(raw, i)
    ensures t.List? && n <= |t.items| && AfterItems(raw, t, n, i) ==> Delimited(raw, i)
  {
    hide FieldsFrom, ItemsFrom;
  }

  lemma {:induction false} SameTree(raw: seq<Byte>, t: Tree, u: Tree)
    requires Spells(raw, t) && Spells(raw, u) && t.start == u.start
    requires Delimited(raw, t.end) && Delimited(raw, u.end)
    ensures t == u
    decreases t, t.Width() + 1, 0
  {
    hide FieldsFrom, ItemsFrom, Number, String, Delimited;
    SpellsStart(raw, t);
    SpellsStart(raw, u);
    match t
    case Scalar(kind, i, j) =>
      if kind == StringKind {
        StringUnique(raw, i, j, u.end);
      } else if kind == NumberKind {
        NumberIsReach(raw, i, j);
        NumberIsReach(raw, i, u.end);
      } else {
        assert |raw[i..j]| == j - i && |raw[i..u.end]| == u.end - i;
      }
    case Record(i, _, _) =>
      SameFirstField(raw, t, u, i + 1);
    case List(i, _, _) =>
      SameFirstItem(raw, t, u, i + 1);
  }

  lemma {:induction false} SameFirstField(raw: seq<Byte>, t: Tree, u: Tree, i: nat)
    requires t.Record? && u.Record? && FirstFieldFrom(raw, t, i) && FirstFieldFrom(raw, u, i)
    ensures t.fields == u.fields && t.end == u.end
    decreases t, t.Width(), 5
  {
    hide Spells, ColonFrom;
    if t.fields == [] && u.fields == [] {
      SpaceStops(raw, i, t.end - 1, u.end - 1);
    } else if t.fields == [] {
      SpaceStops(raw, i, t.end - 1, u.fields[0].key);
    } else if u.fields == [] {
      SpaceStops(raw, i, t.fields[0].key, u.end - 1);
    } else {
      SameFields(raw, t, u, 0, i);
    }
  }

  lemma {:induction false} SameFields(raw: seq<Byte>, t: Tree, u: Tree, k: nat, i: nat)
    requires t.Record? && u.Record? && k < |t.fields| && k < |u.fields|
    requires FieldsFrom(raw, t, k, i) && FieldsFrom(raw, u, k, i) && t.fields[..k] == u.fields[..k]
    ensures t.fields == u.fields && t.end == u.end
    decreases t, |t.fields| - k, 3
  {
    hide Spells, Delimited, Chars;
    var f, g := t.fields[k], u.fields[k];
    SpaceStops(raw, i, f.key, g.key);
    StringUnique(raw, f.key, f.keyEnd, g.keyEnd);
    var c: nat :| Space(raw, f.keyEnd, c) && c < |raw| && raw[c] == 0x3A && FieldValueFrom(raw, t, k, c + 1);
    var d: nat :| Space(raw, g.keyEnd, d) && d < |raw| && raw[d] == 0x3A && FieldValueFrom(raw, u, k, d + 1);
    SpaceStops(raw, f.keyEnd, c, d);
    SpellsStart(raw, f.value);
    SpellsStart(raw, g.value);
    SpaceStops(raw, c + 1, f.value.start, g.value.start);
    AfterDelimits(raw, t, k + 1, f.value.end);
    AfterDelimits(raw, u, k + 1, g.value.end);
    SameTree(raw, f.value, g.value);
    assert t.fields[..k + 1] == t.fields[..k] + [f];
    assert u.fields[..k + 1] == u.fields[..k] + [g];
    SameAfterFields(raw, t, u, k + 1, f.value.end);
  }

  lemma {:induction false} SameAfterFields(raw: seq<Byte>, t: Tree, u: Tree, n: nat, i: nat)
    requires t.Record? && u.Record? && n <= |t.fields| && n <= |u.fields| && t.fields[..n] == u.fields[..n]
    requires AfterFields(raw, t, n, i) && AfterFields(raw, u, n, i)
    ensures t.fields == u.fields && t.end == u.end
    decreases t, |t.fields| - n, 4
  {
    hide FieldsFrom;
    var a: nat :| Space(raw, i, a) && a < |raw| &&
      if n == |t.fields| then raw[a] == 0x7D && t.end == a + 1 else raw[a] == 0x2C && FieldsFrom(raw, t, n, a + 1);
    var b: nat :| Space(raw, i, b) && b < |raw| &&
      if n == |u.fields| then raw[b] == 0x7D && u.end == b + 1 else raw[b] == 0x2C && FieldsFrom(raw, u, n, b + 1);
    SpaceStops(raw, i, a, b);
    if n < |t.fields| {
      SameFields(raw, t, u, n, a + 1);
    } else {
      assert t.fields == t.fields[..n] && u.fields == u.fields[..n];
    }
  }

  lemma {:induction false} SameFirstItem(raw: seq<Byte>, t: Tree, u: Tree, i: nat)
    requires t.List? && u.List? && FirstItemFrom(raw, t, i) && FirstItemFrom(raw, u, i)
    ensures t.items == u.items && t.end == u.end
    decreases t, t.Width(), 5
  {
    hide Spells, AfterItems;
    if t.items != [] {
      SpellsStart(raw, t.items[0]);
    }
    if u.items != [] {
      SpellsStart(raw, u.items[0]);
    }
    if t.items == [] && u.items == [] {
      SpaceStops(raw, i, t.end - 1, u.end - 1);
    } else if t.items == [] {
      SpaceStops(raw, i, t.end - 1, u.items[0].start);
    } else if u.items == [] {
      SpaceStops(raw, i, t.items[0].start, u.end - 1);
    } else {
      SameItems(raw, t, u, 0, i);
    }
  }

  lemma {:induction false} SameItems(raw: seq<Byte>, t: Tree, u: Tree, k: nat, i: nat)
    requires t.List? && u.List? && k < |t.items| && k < |u.items|
    requires ItemsFrom(raw, t, k, i) && ItemsFrom(raw, u, k, i) && t.items[..k] == u.items[..k]
    ensures t.items == u.items && t.end == u.end
    decreases t, |t.items| - k, 3
  {
    hide Spells, Delimited, AfterItems;
    var v, w := t.items[k], u.items[k];
    SpellsStart(raw, v);
    SpellsStart(raw, w);
    SpaceStops(raw, i, v.start, w.start);
    AfterDelimits(raw, t, k + 1, v.end);
    AfterDelimits(raw, u, k + 1, w.end);
    SameTree(raw, v, w);
    assert t.items[..k + 1] == t.items[..k] + [v];
    assert u.items[..k + 1] == u.items[..k] + [w];
    SameAfterItems(raw, t, u, k + 1, v.end);
  }

  lemma {:induction false} SameAfterItems(raw: seq<Byte>, t: Tree, u: Tree, n: nat, i: nat)
    requires t.List? && u.List? && n <= |t.items| && n <= |u.items| && t.items[..n] == u.items[..n]
    requires AfterItems(raw, t, n, i) && AfterItems(raw, u, n, i)
    ensures t.items == u.items && t.end == u.end
    decreases t, |t.items| - n, 4
  {
    hide ItemsFrom;
    var a: nat :| Space(raw, i, a) && a < |raw| &&
      if n == |t.items| then raw[a] == 0x5D && t.end == a + 1 else raw[a] == 0x2C && ItemsFrom(raw, t, n, a + 1);
    var b: nat :| Space(raw, i, b) && b < |raw| &&
      if n == |u.items| then raw[b] == 0x5D && u.end == b + 1 else raw[b] == 0x2C && ItemsFrom(raw, u, n, b + 1);
    SpaceStops(raw, i, a, b);
    if n < |t.items| {
      SameItems(raw, t, u, n, a + 1);
    } else {
      assert t.items == t.items[..n] && u.items == u.items[..n];
    }
  }

  lemma OneTree(raw: seq<Byte>, t: Tree, u: Tree)
    requires Parses(raw, t) && Parses(raw, u)
    ensures t == u
  {
    hide Spells;
    SpellsStart(raw, t);
    SpellsStart(raw, u);
    SpaceStops(raw, 0, t.start, u.start);
    SameTree(raw, t, u);
  }

  // ---- What a string says ----

  // The code unit that a six-byte escape names.
  function UnitAt(raw: seq<Byte>, i: nat): (unit: int)
    ensures unit < 0x10000
  {
    if i + 6 <= |raw| && raw[i] == 0x5C && raw[i + 1] == 0x75 && Hex4At(raw, i + 2) then
      Hex4Bound(raw, i + 2);
      HexValue(raw, i + 2, 4)
    else -1
  }

  // A high surrogate with its low one after it.
  predicate PairAt(raw: seq<Byte>, i: nat) {
    IsHigh(UnitAt(raw, i)) && IsLow(UnitAt(raw, i + 6))
  }

  // A scalar that is written as its code units in UTF-16 reads back, section 7 of RFC 8259.
  lemma UnitsRead(raw: seq<Byte>, i: nat, v: int, strict: bool)
    requires IsScalar(v)
    requires
      if v < 0x10000 then UnitAt(raw, i) == v
      else UnitAt(raw, i) == 0xD800 + (v - 0x10000) / 0x400 && UnitAt(raw, i + 6) == 0xDC00 + (v - 0x10000) % 0x400
    ensures Escape(raw, i, strict) == Ok(Unit(v, if v < 0x10000 then i + 6 else i + 12))
  {
    hide HexValue;
  }

  // No surrogate among the characters stands alone.
  predicate Paired(raw: seq<Byte>, i: nat, j: nat)
    decreases j - i
  {
    i >= j ||
    if PairAt(raw, i) then Paired(raw, i + 12, j)
    else
      !IsHigh(UnitAt(raw, i)) && !IsLow(UnitAt(raw, i)) && CharWidth(raw, i) > 0
      && Paired(raw, i + CharWidth(raw, i), j)
  }

  // The text between the quotes of a string.
  function Decoded(raw: seq<Byte>, i: nat, j: nat): seq<Byte>
    decreases j - i
  {
    if i >= j || i >= |raw| || raw[i] == 0x22 then []
    else
      var piece := Piece(raw, i, false);
      PieceIsChars(raw, i, false);
      if piece.Err? then [] else piece.value.decoded + Decoded(raw, piece.value.end, j)
  }

  // The text of the string that spans i..j.
  function Text(raw: seq<Byte>, i: nat, j: nat): seq<Byte> {
    if j == 0 then [] else Decoded(raw, i + 1, j - 1)
  }

  predicate Whole(raw: seq<Byte>, i: nat, j: nat) {
    j == 0 || Paired(raw, i + 1, j - 1)
  }

  // One piece of a string is a pair of surrogates, one that stands alone, or one other character.
  lemma PieceUnits(raw: seq<Byte>, i: nat)
    requires i < |raw| && CharWidth(raw, i) > 0
    requires i + CharWidth(raw, i) < |raw|
    requires raw[i + CharWidth(raw, i)] == 0x5C ==> CharWidth(raw, i + CharWidth(raw, i)) > 0
    ensures
      var strict, lenient := Piece(raw, i, true), Piece(raw, i, false);
      && raw[i] != 0x22 && lenient.Ok? && (strict.Ok? ==> strict == lenient)
      && (strict.Err? <==> !PairAt(raw, i) && (IsHigh(UnitAt(raw, i)) || IsLow(UnitAt(raw, i))))
      && (strict.Err? ==> strict.failure == Failure(Unicode, i) && raw[i] == 0x5C)
      && lenient.value.end == (if PairAt(raw, i) then i + 12 else i + CharWidth(raw, i))
      && (PairAt(raw, i) ==> CharWidth(raw, i) == 6 && CharWidth(raw, i + 6) == 6)
  {
    hide HexValue, Encode;
  }

  // What a scan within a budget of decoded bytes reports of a string of the grammar.
  lemma {:induction false} ScanMeans(raw: seq<Byte>, i: nat, j: nat, budget: nat, strict: bool)
    requires Chars(raw, i, j) && j < |raw| && raw[j] == 0x22
    ensures
      var text := Decoded(raw, i, j);
      match ScanFrom(raw, i, budget, strict)
      case Ok(s) => s.end == j + 1 && s.decoded == text && |text| <= budget && (strict ==> Paired(raw, i, j))
      case Err(f) =>
        (f.kind == Resource && |text| > budget) ||
        (strict && f.kind == Unicode && !Malformed(raw, f) && !Paired(raw, i, j))
    decreases j - i
  {
    hide Piece, CharWidth, UnitAt;
    if i < j {
      CharStays(raw, i, j);
      PieceUnits(raw, i);
      PieceIsChars(raw, i, strict);
      var lenient := Piece(raw, i, false).value;
      if PairAt(raw, i) {
        CharStays(raw, i + 6, j);
      }
      var piece := Piece(raw, i, strict);
      if piece.Ok? && |lenient.decoded| <= budget {
        ScanMeans(raw, lenient.end, j, budget - |lenient.decoded|, strict);
      }
    }
  }

  lemma CharStays(raw: seq<Byte>, i: nat, j: nat)
    requires Chars(raw, i, j) && i < j < |raw| && raw[j] == 0x22
    ensures
      var n := i + CharWidth(raw, i);
      && i < n <= j && raw[i] != 0x22 && Chars(raw, n, j)
      && (raw[n] == 0x5C ==> n < j && CharWidth(raw, n) > 0)
  {
  }

  // The same for a whole string.
  lemma StringMeans(raw: seq<Byte>, start: nat, end: nat, limit: nat, strict: bool)
    requires String(raw, start, end)
    ensures
      var text := Text(raw, start, end);
      match StringResult(raw, start, limit, strict)
      case Ok(s) => s.end == end && s.decoded == text && |text| <= limit && (strict ==> Whole(raw, start, end))
      case Err(f) =>
        (f.kind == Resource && |text| > limit) ||
        (strict && f.kind == Unicode && !Malformed(raw, f) && !Whole(raw, start, end))
  {
    hide ScanFrom, Paired, Decoded, Chars;
    ScanMeans(raw, start + 1, end - 1, limit, strict);
  }
}
