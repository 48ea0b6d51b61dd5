// What is still owed after a prefix of a JSON text has been read: a stack of container states,
// each standing for the rest of its container's grammar. `Completes` says that the remaining
// bytes pay the whole debt; the lemmas say how one token changes it.
module JsonPending {
  import opened Utf8
  import opened JsonGrammar

  datatype State =
    | ObjectFirstKeyOrEnd | ObjectKey | ObjectColon | ObjectValue | ObjectCommaOrEnd
    | ArrayFirstValueOrEnd | ArrayValue | ArrayCommaOrEnd

  // After a value: nothing is owed, or a comma or closing bracket comes next.
  predicate AfterValue(stack: seq<State>) {
    stack == [] || stack[|stack| - 1] == ObjectCommaOrEnd || stack[|stack| - 1] == ArrayCommaOrEnd
  }

  // The bytes i..j finish the container whose state this is, closing bracket included.
  ghost predicate Rest(state: State, raw: seq<Byte>, i: nat, j: nat) {
    i < j <= |raw| &&
    match state
    case ObjectFirstKeyOrEnd => raw[j - 1] == 0x7D && (Space(raw, i, j - 1) || Members(raw, i, j - 1))
    case ObjectKey => raw[j - 1] == 0x7D && Members(raw, i, j - 1)
    case ObjectColon => exists c: nat :: Space(raw, i, c) && c < j && raw[c] == 0x3A && RestOfMembers(raw, c + 1, j)
    case ObjectValue => RestOfMembers(raw, i, j)
    case ObjectCommaOrEnd => exists k: nat :: Space(raw, i, k) && k < j && MembersGoOn(raw, k, j)
    case ArrayFirstValueOrEnd => raw[j - 1] == 0x5D && (Space(raw, i, j - 1) || Elements(raw, i, j - 1))
    case ArrayValue => raw[j - 1] == 0x5D && Elements(raw, i, j - 1)
    case ArrayCommaOrEnd => exists k: nat :: Space(raw, i, k) && k < j && ElementsGoOn(raw, k, j)
  }

  ghost predicate RestOfMembers(raw: seq<Byte>, i: nat, j: nat) {
    exists k: nat :: i <= k < j && Element(raw, i, k) && MembersGoOn(raw, k, j)
  }

  ghost predicate MembersGoOn(raw: seq<Byte>, k: nat, j: nat) {
    k < j <= |raw| &&
    ((raw[k] == 0x7D && j == k + 1) || (raw[k] == 0x2C && raw[j - 1] == 0x7D && Members(raw, k + 1, j - 1)))
  }

  ghost predicate ElementsGoOn(raw: seq<Byte>, k: nat, j: nat) {
    k < j <= |raw| &&
    ((raw[k] == 0x5D && j == k + 1) || (raw[k] == 0x2C && raw[j - 1] == 0x5D && Elements(raw, k + 1, j - 1)))
  }

  ghost predicate Completes(raw: seq<Byte>, i: nat, stack: seq<State>)
    decreases |stack|
  {
    if stack == [] then
      Space(raw, i, |raw|)
    else
      var top, below := stack[|stack| - 1], stack[..|stack| - 1];
      exists j: nat :: Rest(top, raw, i, j) && Completes(raw, j, below)
  }

  // A value comes next, and then the debt is paid.
  ghost predicate ValueThen(raw: seq<Byte>, i: nat, stack: seq<State>) {
    exists k: nat :: Value(raw, i, k) && Completes(raw, k, stack)
  }

  // ---- Spaces ----

  lemma ElementSpace(raw: seq<Byte>, i: nat, j: nat)
    requires i < |raw| && IsSpace(raw[i])
    ensures Element(raw, i, j) <==> Element(raw, i + 1, j)
  {
    if Element(raw, i, j) {
      var a: nat, b: nat :| Space(raw, i, a) && Space(raw, b, j) && a < b && Value(raw, a, b);
      ValueStart(raw, a, b);
      assert Space(raw, i + 1, a);
    }
    if Element(raw, i + 1, j) {
      var a: nat, b: nat :| Space(raw, i + 1, a) && Space(raw, b, j) && a < b && Value(raw, a, b);
      assert Space(raw, i, a);
    }
  }

  // The bytes a value can start with.
  predicate StartsValue(b: Byte) {
    b == 0x7B || b == 0x5B || b == 0x22 || b == 0x74 || b == 0x66 || b == 0x6E || b == 0x2D || IsDigit(b)
  }

  lemma NumberStart(raw: seq<Byte>, i: nat, j: nat)
    ensures Number(raw, i, j) ==> i < |raw| && (raw[i] == 0x2D || IsDigit(raw[i]))
  {
    if Unsigned(raw, i, j) {
      var a: nat, b: nat :| Integer(raw, i, a) && Fraction(raw, a, b) && Exponent(raw, b, j);
    }
  }

  lemma LiteralStart(raw: seq<Byte>, i: nat, j: nat)
    ensures Literal(raw, i, j) ==> i < j <= |raw| && (raw[i] == 0x74 || raw[i] == 0x66 || raw[i] == 0x6E)
  {
    if Literal(raw, i, j) {
      assert raw[i..j][0] == raw[i];
    }
  }

  lemma ValueStart(raw: seq<Byte>, i: nat, j: nat)
    requires Value(raw, i, j)
    ensures i < |raw| && StartsValue(raw[i])
  {
    LiteralStart(raw, i, j);
    NumberStart(raw, i, j);
    if !Literal(raw, i, j) && !Number(raw, i, j) {
      assert String(raw, i, j) || Object(raw, i, j) || Array(raw, i, j);
    }
  }

  lemma MemberSpace(raw: seq<Byte>, i: nat, j: nat)
    requires i < |raw| && IsSpace(raw[i])
    ensures Member(raw, i, j) <==> Member(raw, i + 1, j)
  {
    hide Element, Chars;
    if Member(raw, i, j) {
      var a: nat, b: nat, c: nat :|
        Space(raw, i, a) && String(raw, a, b) && Space(raw, b, c) && c < j && raw[c] == 0x3A && Element(raw, c + 1, j);
      assert Space(raw, i + 1, a);
    }
    if Member(raw, i + 1, j) {
      var a: nat, b: nat, c: nat :|
        Space(raw, i + 1, a) && String(raw, a, b) && Space(raw, b, c) && c < j && raw[c] == 0x3A
          && Element(raw, c + 1, j);
      assert Space(raw, i, a);
    }
  }

  lemma MembersSpace(raw: seq<Byte>, i: nat, j: nat)
    requires i < |raw| && IsSpace(raw[i])
    ensures Members(raw, i, j) <==> Members(raw, i + 1, j)
  {
    MemberSpace(raw, i, j);
    forall k: nat ensures Member(raw, i, k) <==> Member(raw, i + 1, k) {
      MemberSpace(raw, i, k);
    }
  }

  lemma ElementsSpace(raw: seq<Byte>, i: nat, j: nat)
    requires i < |raw| && IsSpace(raw[i])
    ensures Elements(raw, i, j) <==> Elements(raw, i + 1, j)
  {
    forall k: nat ensures Element(raw, i, k) <==> Element(raw, i + 1, k) {
      ElementSpace(raw, i, k);
    }
  }

  // Leading white space changes no debt.
  lemma RestSpace(state: State, raw: seq<Byte>, i: nat, j: nat)
    requires i < |raw| && IsSpace(raw[i])
    ensures Rest(state, raw, i, j) <==> Rest(state, raw, i + 1, j)
  {
    hide Members, Elements, Element;
    if j > 0 {
      MembersSpace(raw, i, j - 1);
      ElementsSpace(raw, i, j - 1);
    }
    match state
    case ObjectColon =>
      forall c: nat | c < |raw| && raw[c] == 0x3A ensures Space(raw, i, c) <==> Space(raw, i + 1, c) {
      }
    case ObjectValue =>
      forall k: nat ensures Element(raw, i, k) <==> Element(raw, i + 1, k) {
        ElementSpace(raw, i, k);
      }
    case _ =>
  }

  // ---- One token at a time ----

  lemma CompletesTop(raw: seq<Byte>, i: nat, below: seq<State>, state: State)
    ensures Completes(raw, i, below + [state]) <==> exists j: nat :: Rest(state, raw, i, j) && Completes(raw, j, below)
  {
    hide Rest;
    assert (below + [state])[..|below|] == below;
  }

  // Two debts that the same bytes finish are the same debt.
  lemma SameRest(raw: seq<Byte>, i: nat, state: State, n: nat, next: State, below: seq<State>)
    requires forall j: nat :: Rest(state, raw, i, j) <==> Rest(next, raw, n, j)
    ensures Completes(raw, i, below + [state]) <==> Completes(raw, n, below + [next])
  {
    hide Rest;
    CompletesTop(raw, i, below, state);
    CompletesTop(raw, n, below, next);
  }

  lemma {:induction false} SkipSpace(raw: seq<Byte>, i: nat, n: nat, stack: seq<State>)
    requires Space(raw, i, n)
    ensures Completes(raw, i, stack) <==> Completes(raw, n, stack)
    decreases n - i
  {
    hide Rest;
    if i < n {
      if stack != [] {
        var top := stack[|stack| - 1];
        forall j: nat ensures Rest(top, raw, i, j) <==> Rest(top, raw, i + 1, j) {
          RestSpace(top, raw, i, j);
        }
      }
      SkipSpace(raw, i + 1, n, stack);
    }
  }

  predicate Blocked(raw: seq<Byte>, i: nat) {
    i >= |raw| || !IsSpace(raw[i])
  }

  // An object or array that may still be empty closes at its bracket, and at nothing else.
  lemma CloseFirst(raw: seq<Byte>, i: nat, below: seq<State>, state: State)
    requires (state == ObjectFirstKeyOrEnd && i < |raw| && raw[i] == 0x7D) ||
             (state == ArrayFirstValueOrEnd && i < |raw| && raw[i] == 0x5D)
    ensures Completes(raw, i, below + [state]) <==> Completes(raw, i + 1, below)
  {
    forall j: nat ensures Rest(state, raw, i, j) <==> j == i + 1 {
      if Rest(state, raw, i, j) && j != i + 1 {
        if state == ObjectFirstKeyOrEnd && Members(raw, i, j - 1) {
          MembersStart(raw, i, j - 1);
        }
        if state == ArrayFirstValueOrEnd && Elements(raw, i, j - 1) {
          ElementsStart(raw, i, j - 1);
        }
      }
    }
    CompletesTop(raw, i, below, state);
  }

  lemma OpenFirst(raw: seq<Byte>, i: nat, below: seq<State>, state: State)
    requires Blocked(raw, i)
    requires (state == ObjectFirstKeyOrEnd && !(i < |raw| && raw[i] == 0x7D)) ||
             (state == ArrayFirstValueOrEnd && !(i < |raw| && raw[i] == 0x5D))
    ensures Completes(raw, i, below + [state]) <==>
            Completes(raw, i, below + [if state == ObjectFirstKeyOrEnd then ObjectKey else ArrayValue])
  {
    hide Members, Elements;
    SameRest(raw, i, state, i, if state == ObjectFirstKeyOrEnd then ObjectKey else ArrayValue, below);
  }

  lemma MembersStart(raw: seq<Byte>, i: nat, j: nat)
    requires Members(raw, i, j) && Blocked(raw, i)
    ensures i < |raw| && raw[i] == 0x22
    ensures exists b: nat :: String(raw, i, b)
  {
    hide Member;
    if Member(raw, i, j) {
      MemberStart(raw, i, j);
    } else {
      var k: nat :| i < k < j && Member(raw, i, k) && raw[k] == 0x2C && Members(raw, k + 1, j);
      MemberStart(raw, i, k);
    }
  }

  lemma MemberStart(raw: seq<Byte>, i: nat, j: nat)
    requires Member(raw, i, j) && Blocked(raw, i)
    ensures i < |raw| && raw[i] == 0x22
    ensures exists b: nat :: String(raw, i, b)
  {
    hide Element;
    var a: nat, b: nat, c: nat :|
      Space(raw, i, a) && String(raw, a, b) && Space(raw, b, c) && c < j && raw[c] == 0x3A && Element(raw, c + 1, j);
  }

  lemma ElementStart(raw: seq<Byte>, i: nat, j: nat)
    requires Element(raw, i, j) && Blocked(raw, i)
    ensures i < |raw| && StartsValue(raw[i])
    ensures exists b: nat :: Value(raw, i, b) && Space(raw, b, j)
  {
    var a: nat, b: nat :| Space(raw, i, a) && Space(raw, b, j) && a < b && Value(raw, a, b);
    ValueStart(raw, a, b);
  }

  lemma ElementsStart(raw: seq<Byte>, i: nat, j: nat)
    requires Elements(raw, i, j) && Blocked(raw, i)
    ensures i < |raw| && StartsValue(raw[i])
  {
    hide Element;
    var k: nat :| Element(raw, i, k);
    ElementStart(raw, i, k);
  }

  // A comma or a closing bracket after a value.
  lemma AfterValueStep(raw: seq<Byte>, i: nat, below: seq<State>, state: State)
    requires Blocked(raw, i)
    requires state == ObjectCommaOrEnd || state == ArrayCommaOrEnd
    ensures i < |raw| && raw[i] == 0x2C ==>
              (Completes(raw, i, below + [state]) <==>
               Completes(raw, i + 1, below + [if state == ObjectCommaOrEnd then ObjectKey else ArrayValue]))
    ensures i < |raw| && raw[i] == (if state == ObjectCommaOrEnd then 0x7D else 0x5D) ==>
              (Completes(raw, i, below + [state]) <==> Completes(raw, i + 1, below))
    ensures i < |raw| && raw[i] != 0x2C && raw[i] != (if state == ObjectCommaOrEnd then 0x7D else 0x5D) ==>
              !Completes(raw, i, below + [state])
    ensures i >= |raw| ==> !Completes(raw, i, below + [state])
  {
    hide Members, Elements;
    CompletesTop(raw, i, below, state);
    forall j: nat ensures Rest(state, raw, i, j) <==>
      if state == ObjectCommaOrEnd then MembersGoOn(raw, i, j) else ElementsGoOn(raw, i, j) {
      assert i <= |raw| ==> Space(raw, i, i);
    }
    if i < |raw| && raw[i] == 0x2C {
      var next := if state == ObjectCommaOrEnd then ObjectKey else ArrayValue;
      forall j: nat ensures Rest(state, raw, i, j) <==> Rest(next, raw, i + 1, j) {
      }
      SameRest(raw, i, state, i + 1, next, below);
    }
  }

  lemma ColonStep(raw: seq<Byte>, i: nat, below: seq<State>)
    requires Blocked(raw, i)
    ensures i < |raw| && raw[i] == 0x3A ==>
              (Completes(raw, i, below + [ObjectColon]) <==> Completes(raw, i + 1, below + [ObjectValue]))
    ensures i >= |raw| || raw[i] != 0x3A ==> !Completes(raw, i, below + [ObjectColon])
  {
    hide RestOfMembers;
    CompletesTop(raw, i, below, ObjectColon);
    if i < |raw| && raw[i] == 0x3A {
      forall j: nat ensures Rest(ObjectColon, raw, i, j) <==> Rest(ObjectValue, raw, i + 1, j) {
        RestOfMembersProper(raw, i + 1, j);
        assert Space(raw, i, i);
      }
      SameRest(raw, i, ObjectColon, i + 1, ObjectValue, below);
    }
  }

  lemma RestOfMembersProper(raw: seq<Byte>, i: nat, j: nat)
    ensures RestOfMembers(raw, i, j) ==> i < j <= |raw|
  {
  }

  // ---- Keys ----

  lemma {:induction false} CharsStop(raw: seq<Byte>, i: nat, j: nat, k: nat)
    requires Chars(raw, i, j) && j < |raw| && raw[j] == 0x22
    requires Chars(raw, i, k) && k < |raw| && raw[k] == 0x22
    ensures j == k
    decreases j - i
  {
    if i != j && i != k {
      CharsStop(raw, i + CharWidth(raw, i), j, k);
    }
  }

  lemma StringUnique(raw: seq<Byte>, i: nat, j: nat, k: nat)
    requires String(raw, i, j) && String(raw, i, k)
    ensures j == k
  {
    CharsStop(raw, i + 1, j - 1, k - 1);
  }

  lemma KeyStep(raw: seq<Byte>, i: nat, e: nat, below: seq<State>)
    requires String(raw, i, e)
    ensures Completes(raw, i, below + [ObjectKey]) <==> Completes(raw, e, below + [ObjectColon])
  {
    forall j: nat ensures Rest(ObjectKey, raw, i, j) <==> Rest(ObjectColon, raw, e, j) {
      if Rest(ObjectKey, raw, i, j) {
        KeyThenColon(raw, i, e, j);
      }
      if Rest(ObjectColon, raw, e, j) {
        ColonThenKey(raw, i, e, j);
      }
    }
    SameRest(raw, i, ObjectKey, e, ObjectColon, below);
  }

  lemma KeyThenColon(raw: seq<Byte>, i: nat, e: nat, j: nat)
    requires String(raw, i, e) && Rest(ObjectKey, raw, i, j)
    ensures Rest(ObjectColon, raw, e, j)
  {
    hide Element, String;
    var k: nat :| i < k < j && Member(raw, i, k) &&
      (k == j - 1 || (raw[k] == 0x2C && Members(raw, k + 1, j - 1)));
    assert MembersGoOn(raw, k, j);
    MemberFrom(raw, i, e, k);
    var c: nat :| Space(raw, e, c) && c < k && raw[c] == 0x3A && Element(raw, c + 1, k);
    assert RestOfMembers(raw, c + 1, j);
  }

  lemma MemberFrom(raw: seq<Byte>, i: nat, e: nat, k: nat)
    requires String(raw, i, e)
    ensures Member(raw, i, k) <==>
      i < k <= |raw| && exists c: nat :: Space(raw, e, c) && c < k && raw[c] == 0x3A && Element(raw, c + 1, k)
  {
    if Member(raw, i, k) {
      var a: nat, b: nat, c: nat :|
        Space(raw, i, a) && String(raw, a, b) && Space(raw, b, c) && c < k && raw[c] == 0x3A && Element(raw, c + 1, k);
      StringUnique(raw, i, e, b);
    }
    assert Space(raw, i, i);
  }

  lemma ColonThenKey(raw: seq<Byte>, i: nat, e: nat, j: nat)
    requires String(raw, i, e) && Rest(ObjectColon, raw, e, j)
    ensures Rest(ObjectKey, raw, i, j)
  {
    hide Element, String;
    var c: nat :| Space(raw, e, c) && c < j && raw[c] == 0x3A && RestOfMembers(raw, c + 1, j);
    var k: nat :| c + 1 <= k < j && Element(raw, c + 1, k) && MembersGoOn(raw, k, j);
    assert i < e by {
      KeyAdvances(raw, i, e);
    }
    MemberFrom(raw, i, e, k);
    assert Member(raw, i, k);
  }

  lemma KeyAdvances(raw: seq<Byte>, i: nat, e: nat)
    requires String(raw, i, e)
    ensures i < e <= |raw|
  {
  }

  lemma NoKey(raw: seq<Byte>, i: nat, below: seq<State>)
    requires Blocked(raw, i)
    requires forall e: nat :: !String(raw, i, e)
    ensures !Completes(raw, i, below + [ObjectKey])
  {
    CompletesTop(raw, i, below, ObjectKey);
    forall j: nat ensures !Members(raw, i, j) {
      if Members(raw, i, j) {
        MembersStart(raw, i, j);
      }
    }
  }

  // ---- Values ----

  lemma ValueInObject(raw: seq<Byte>, i: nat, below: seq<State>)
    requires Blocked(raw, i)
    ensures Completes(raw, i, below + [ObjectValue]) <==> ValueThen(raw, i, below + [ObjectCommaOrEnd])
  {
    hide Value, MembersGoOn;
    CompletesTop(raw, i, below, ObjectValue);
    if Completes(raw, i, below + [ObjectValue]) {
      var j: nat :| Rest(ObjectValue, raw, i, j) && Completes(raw, j, below);
      var k: nat :| i <= k < j && Element(raw, i, k) && MembersGoOn(raw, k, j);
      ElementStart(raw, i, k);
      var b: nat :| Value(raw, i, b) && Space(raw, b, k);
      assert Rest(ObjectCommaOrEnd, raw, b, j);
      CompletesTop(raw, b, below, ObjectCommaOrEnd);
    }
    if ValueThen(raw, i, below + [ObjectCommaOrEnd]) {
      var b: nat :| Value(raw, i, b) && Completes(raw, b, below + [ObjectCommaOrEnd]);
      CompletesTop(raw, b, below, ObjectCommaOrEnd);
      var j: nat :| Rest(ObjectCommaOrEnd, raw, b, j) && Completes(raw, j, below);
      var k: nat :| Space(raw, b, k) && k < j && MembersGoOn(raw, k, j);
      ValueProper(raw, i, b);
      ElementIs(raw, i, b, k);
      assert Rest(ObjectValue, raw, i, j);
    }
  }

  lemma ValueProper(raw: seq<Byte>, i: nat, j: nat)
    requires Value(raw, i, j)
    ensures i < j <= |raw|
  {
  }

  lemma ElementIs(raw: seq<Byte>, i: nat, b: nat, k: nat)
    requires Value(raw, i, b) && Space(raw, b, k)
    ensures Element(raw, i, k)
  {
    hide Value;
    ValueProper(raw, i, b);
    assert Space(raw, i, i);
  }

  // An element in place is a value, and then the debt of an array that has one.
  lemma ArrayRest(raw: seq<Byte>, i: nat, j: nat)
    requires Blocked(raw, i)
    ensures Rest(ArrayValue, raw, i, j) <==> exists b: nat :: Value(raw, i, b) && Rest(ArrayCommaOrEnd, raw, b, j)
  {
    hide Value, Element, Elements;
    if Rest(ArrayValue, raw, i, j) {
      ElementsSplit(raw, i, j - 1);
      var k: nat :| i < k < j && Element(raw, i, k) && (k == j - 1 || (raw[k] == 0x2C && Elements(raw, k + 1, j - 1)));
      ElementStart(raw, i, k);
      var b: nat :| Value(raw, i, b) && Space(raw, b, k);
      assert ElementsGoOn(raw, k, j);
      ValueProper(raw, i, b);
      assert Rest(ArrayCommaOrEnd, raw, b, j);
    }
    if exists b: nat :: Value(raw, i, b) && Rest(ArrayCommaOrEnd, raw, b, j) {
      var b: nat :| Value(raw, i, b) && Rest(ArrayCommaOrEnd, raw, b, j);
      var k: nat :| Space(raw, b, k) && k < j && ElementsGoOn(raw, k, j);
      ValueProper(raw, i, b);
      ElementIs(raw, i, b, k);
      ElementsJoin(raw, i, k, j);
    }
  }

  lemma ValueInArray(raw: seq<Byte>, i: nat, below: seq<State>)
    requires Blocked(raw, i)
    ensures Completes(raw, i, below + [ArrayValue]) <==> ValueThen(raw, i, below + [ArrayCommaOrEnd])
  {
    hide Value, Rest, Completes;
    CompletesTop(raw, i, below, ArrayValue);
    if Completes(raw, i, below + [ArrayValue]) {
      var j: nat :| Rest(ArrayValue, raw, i, j) && Completes(raw, j, below);
      ArrayRest(raw, i, j);
      var b: nat :| Value(raw, i, b) && Rest(ArrayCommaOrEnd, raw, b, j);
      CompletesTop(raw, b, below, ArrayCommaOrEnd);
    }
    if ValueThen(raw, i, below + [ArrayCommaOrEnd]) {
      var b: nat :| Value(raw, i, b) && Completes(raw, b, below + [ArrayCommaOrEnd]);
      CompletesTop(raw, b, below, ArrayCommaOrEnd);
      var j: nat :| Rest(ArrayCommaOrEnd, raw, b, j) && Completes(raw, j, below);
      ArrayRest(raw, i, j);
    }
  }

  lemma ElementsSplit(raw: seq<Byte>, i: nat, j: nat)
    requires Elements(raw, i, j)
    ensures exists k: nat ::
      i < k <= j && Element(raw, i, k) && (k == j || (raw[k] == 0x2C && Elements(raw, k + 1, j)))
  {
    hide Element;
    if Element(raw, i, j) {
      assert i < j && Element(raw, i, j);
    } else {
      var k: nat :| i < k < j && Element(raw, i, k) && raw[k] == 0x2C && Elements(raw, k + 1, j);
    }
  }

  lemma ElementsJoin(raw: seq<Byte>, i: nat, k: nat, j: nat)
    requires i < k && Element(raw, i, k) && ElementsGoOn(raw, k, j)
    ensures raw[j - 1] == 0x5D && Elements(raw, i, j - 1)
  {
    hide Element;
  }

  lemma OpenContainer(raw: seq<Byte>, i: nat, stack: seq<State>)
    requires i < |raw|
    ensures raw[i] == 0x7B ==> (ValueThen(raw, i, stack) <==> Completes(raw, i + 1, stack + [ObjectFirstKeyOrEnd]))
    ensures raw[i] == 0x5B ==> (ValueThen(raw, i, stack) <==> Completes(raw, i + 1, stack + [ArrayFirstValueOrEnd]))
  {
    hide Members, Elements, Literal, Number, String;
    CompletesTop(raw, i + 1, stack, ObjectFirstKeyOrEnd);
    CompletesTop(raw, i + 1, stack, ArrayFirstValueOrEnd);
    forall k: nat | raw[i] == 0x7B ensures Value(raw, i, k) <==> Rest(ObjectFirstKeyOrEnd, raw, i + 1, k) {
      NotScalar(raw, i, k);
    }
    forall k: nat | raw[i] == 0x5B ensures Value(raw, i, k) <==> Rest(ArrayFirstValueOrEnd, raw, i + 1, k) {
      NotScalar(raw, i, k);
    }
  }

  lemma NotScalar(raw: seq<Byte>, i: nat, k: nat)
    requires i < |raw| && (raw[i] == 0x7B || raw[i] == 0x5B)
    ensures !Literal(raw, i, k) && !Number(raw, i, k) && !String(raw, i, k)
  {
    LiteralStart(raw, i, k);
    NumberStart(raw, i, k);
  }

  // No debt is paid by a value that does not start, and no byte outside the list starts one.
  lemma NoValue(raw: seq<Byte>, i: nat, stack: seq<State>)
    requires i >= |raw| || !StartsValue(raw[i])
    ensures !ValueThen(raw, i, stack)
  {
    hide Value, Completes;
    forall k: nat ensures !Value(raw, i, k) {
      if Value(raw, i, k) {
        ValueStart(raw, i, k);
      }
    }
  }

  lemma StringValue(raw: seq<Byte>, i: nat, stack: seq<State>)
    requires i < |raw| && raw[i] == 0x22
    ensures forall e: nat :: String(raw, i, e) ==> (ValueThen(raw, i, stack) <==> Completes(raw, e, stack))
    ensures (forall e: nat :: !String(raw, i, e)) ==> !ValueThen(raw, i, stack)
  {
    hide Completes;
    forall k: nat ensures Value(raw, i, k) <==> String(raw, i, k) {
      StringOnly(raw, i, k);
    }
    forall e: nat | String(raw, i, e) ensures ValueThen(raw, i, stack) <==> Completes(raw, e, stack) {
      forall k: nat | String(raw, i, k) ensures k == e {
        StringUnique(raw, i, e, k);
      }
    }
  }

  lemma StringOnly(raw: seq<Byte>, i: nat, k: nat)
    requires i < |raw| && raw[i] == 0x22
    ensures Value(raw, i, k) <==> String(raw, i, k)
  {
    LiteralStart(raw, i, k);
    NumberStart(raw, i, k);
  }

  lemma LiteralValue(raw: seq<Byte>, i: nat, word: seq<Byte>, stack: seq<State>)
    requires word == TRUE_WORD || word == FALSE_WORD || word == NULL_WORD
    requires i < |raw| && raw[i] == word[0]
    ensures Spelled(raw, i, i + |word|, word) ==> (ValueThen(raw, i, stack) <==> Completes(raw, i + |word|, stack))
    ensures !Spelled(raw, i, i + |word|, word) ==> !ValueThen(raw, i, stack)
  {
    hide Completes;
    forall k: nat ensures Value(raw, i, k) <==> k == i + |word| && Spelled(raw, i, k, word) {
      LiteralOnly(raw, i, word, k);
    }
  }

  lemma LiteralOnly(raw: seq<Byte>, i: nat, word: seq<Byte>, k: nat)
    requires word == TRUE_WORD || word == FALSE_WORD || word == NULL_WORD
    requires i < |raw| && raw[i] == word[0]
    ensures Value(raw, i, k) <==> k == i + |word| && Spelled(raw, i, k, word)
  {
    NumberStart(raw, i, k);
    if Literal(raw, i, k) {
      assert raw[i..k][0] == raw[i];
    }
  }

  // ---- The whole text ----

  lemma TextIsValue(raw: seq<Byte>, start: nat)
    requires Space(raw, 0, start) && Blocked(raw, start)
    ensures IsJson(raw) <==> ValueThen(raw, start, [])
  {
    hide Value;
    if IsJson(raw) {
      var a: nat, b: nat :| Space(raw, 0, a) && Space(raw, b, |raw|) && a < b && Value(raw, a, b);
      ValueStart(raw, a, b);
      assert a == start;
    }
    if ValueThen(raw, start, []) {
      var b: nat :| Value(raw, start, b) && Completes(raw, b, []);
      ValueProper(raw, start, b);
    }
  }
}
