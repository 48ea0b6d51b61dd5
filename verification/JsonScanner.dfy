// The protocol scanner: a machine with a stack of container frames and, once containers nest too
// deeply, a compact overflow stack of bare states. It keeps reading after recoverable failures.
module JsonScanner {
  import opened Wrappers
  import opened Utf8
  import opened JsonTypes
  import opened JsonGrammar
  import opened JsonPending
  import opened JsonNumber
  import opened JsonString
  import opened JsonFrames
  import opened JsonTree
  import opened JsonFaults
  import opened JsonTrail
  import opened JsonTracking
  import opened JsonLockstep
  import opened JsonMoves
  import opened JsonSteps

  // What a scan hands back: the value's kind and span, the raw tool arguments, and an error.
  datatype Outcome = Outcome(kind: Option<ValueKind>, start: nat, end: nat, arguments: Arguments,
                             error: Option<ScopedError>)

  predicate Ascii(word: seq<Byte>) {
    forall k :: 0 <= k < |word| ==> word[k] < 0x80
  }

  // ---- Known keys ----

  lemma LenientEnd(raw: seq<Byte>, start: nat, end: nat)
    requires Addressable(raw) && String(raw, start, end)
    ensures StringResult(raw, start, NO_LIMIT, false).Ok?
    ensures StringResult(raw, start, NO_LIMIT, false).value.end == end
  {
    hide String, StringResult;
    StringResultMeets(raw, start, NO_LIMIT, false);
    if StringResult(raw, start, NO_LIMIT, false).Ok? {
      StringUnique(raw, start, end, StringResult(raw, start, NO_LIMIT, false).value.end);
    }
  }

  // The next scalar of a string that is known to scan.
  lemma NextScalar(raw: seq<Byte>, i: nat, budget: nat)
    requires i < |raw| && raw[i] != 0x22 && ScanFrom(raw, i, budget, false).Ok?
    ensures
      var whole := ScanFrom(raw, i, budget, false).value;
      var piece := Piece(raw, i, false);
      && piece.Ok? && 1 <= |piece.value.decoded| <= budget && i < piece.value.end < whole.end
      && ScanFrom(raw, piece.value.end, budget - |piece.value.decoded|, false)
        == Ok(Scanned(whole.decoded[|piece.value.decoded|..], whole.end))
      && |piece.value.decoded| <= |whole.decoded| && whole.decoded[0] == piece.value.decoded[0]
  {
    hide Piece;
    var piece := Piece(raw, i, false);
    PieceIsChars(raw, i, false);
    ScannedIsChars(raw, piece.value.end, budget - |piece.value.decoded|, false);
  }

  // The first decoded byte is the scalar itself below 0x80 and has its high bit set otherwise.
  lemma FirstByte(raw: seq<Byte>, i: nat)
    requires i < |raw| && raw[i] != 0x22 && Piece(raw, i, false).Ok?
    ensures
      var piece := Piece(raw, i, false).value;
      var scalar := if raw[i] == 0x5C then Escape(raw, i, false).value.scalar else raw[i];
      && |piece.decoded| > 0
      && (scalar < 0x80 ==> piece.decoded == [scalar])
      && (scalar >= 0x80 ==> piece.decoded[0] >= 0x80)
      && (raw[i] == 0x5C ==> Escape(raw, i, false).Ok? && piece.end == Escape(raw, i, false).value.next)
      && (raw[i] != 0x5C && raw[i] < 0x80 ==> piece.end == i + 1)
  {
    hide Escape;
    EscapeIsScalar(raw, i, false);
  }

  // Compares a key with an ASCII word without keeping the decoded key: the answer is about the
  // decoded text, escapes included.
  method KeyEquals(raw: seq<Byte>, start: nat, end: nat, want: seq<Byte>) returns (same: bool)
    requires Addressable(raw) && String(raw, start, end) && Ascii(want) && |want| < 0x80
    ensures StringResult(raw, start, NO_LIMIT, false).Ok?
    ensures same <==> StringResult(raw, start, NO_LIMIT, false).value.decoded == want
  {
    hide Piece, Chars, CharWidth, Encode, ScanFrom, Escape;
    LenientEnd(raw, start, end);
    ghost var key := StringResult(raw, start, NO_LIMIT, false).value.decoded;
    var position := start + 1;
    var wantPosition := 0;
    while position < end - 1
      invariant start < position <= end - 1 && wantPosition <= |want| && wantPosition <= |key|
      invariant ScanFrom(raw, position, NO_LIMIT - wantPosition, false) == Ok(Scanned(key[wantPosition..], end))
      invariant key[..wantPosition] == want[..wantPosition]
      decreases end - position
    {
      QuoteEnds(raw, position, NO_LIMIT - wantPosition);
      NextScalar(raw, position, NO_LIMIT - wantPosition);
      FirstByte(raw, position);
      assert key[wantPosition..][0] == key[wantPosition];
      var value, next;
      if raw[position] == 0x5C {
        var unit := Escape(raw, position, false).value;
        value, next := unit.scalar, unit.next;
      } else {
        if raw[position] >= 0x80 {
          return false;
        }
        value, next := raw[position], position + 1;
      }
      if value > 0x7F || wantPosition >= |want| || value != want[wantPosition] {
        return false;
      }
      assert key[wantPosition..][1..] == key[wantPosition + 1..];
      position := next;
      wantPosition := wantPosition + 1;
    }
    QuoteEnds(raw, position, NO_LIMIT - wantPosition);
    same := wantPosition == |want|;
  }

  lemma QuoteEnds(raw: seq<Byte>, i: nat, budget: nat)
    requires i < |raw| && ScanFrom(raw, i, budget, false).Ok?
    ensures raw[i] == 0x22 ==> ScanFrom(raw, i, budget, false) == Ok(Scanned([], i + 1))
  {
  }

  // A string or a number from `start` to `end`, within its limit.
  predicate IsText(raw: seq<Byte>, start: nat, limit: nat, end: nat) {
    var text := StringResult(raw, start, limit, true);
    text.Ok? && text.value.end == end
  }

  predicate IsQuantity(raw: seq<Byte>, start: nat, limit: nat, end: nat) {
    start < |raw| && NumberReach(raw, start) == End(end) && end - start <= limit
  }

  // The first byte tells the two apart, and neither starts with space.
  lemma ScalarStarts(raw: seq<Byte>, start: nat, limits: Limits)
    ensures forall end: nat :: IsText(raw, start, limits.maxStringBytes, end) ==> start < |raw| && raw[start] == 0x22
    ensures forall end: nat :: IsQuantity(raw, start, limits.maxNumberRawBytes, end) ==>
      start < |raw| && (raw[start] == 0x2D || IsDigit(raw[start])) && start < end
  {
  }

  // What the outcome of a scan says of the message with this tree. When errors are collected, none
  // is reported exactly when the envelope and the params are in order; one that is reported comes
  // from the envelope exactly when that is not in order, and what it tells of its layer is so.
  // Otherwise the first fault is reported, unless it is held back.
  ghost predicate Verdict(c: Setting, collect: bool, t: Tree, outcome: Outcome) {
    && (outcome.error.None? <==>
      (if collect then OuterInOrder(c, t) else Clean(c, t, OuterLayer)) && ParamsInOrder(c, t))
    && (outcome.error.Some? ==>
          var kind := outcome.error.value.failure.kind;
          if collect then
            && outcome.error.value.scope == (if OuterInOrder(c, t) then ScopeParams else ScopeEnvelope)
            && Witnessed(c, t, LayerOf(outcome.error.value.scope), kind)
          else !Free(c, t, TopSpot, 0, Fault(OuterLayer, kind)) || Witnessed(c, t, ParamsLayer, kind))
    && (outcome.error.None? ==>
          outcome == Outcome(Some(t.Kind()), t.start, t.end,
                             if IsToolCall(c.raw, t) then Recorded(MessageArguments(c, t)) else NoArguments, None))
  }

  predicate CallsTool(v: View) {
    v.called.isString && v.called.name == TOOLS_CALL
  }

  predicate OutOfPlace(c: Setting, v: View) {
    c.mode == ProtocolWithRawArguments && v.arguments.ArgumentsAt? &&
    if CallsTool(v) then v.arguments.kind != ObjectKind else v.errors.held.Some?
  }

  // What the end of the text adds to a view, and the outcome that comes of it.
  ghost predicate Concluded(c: Setting, collect: bool, v: View, e: Errors, kind: ValueKind, start: nat, end: nat,
                            outcome: Outcome) {
    var over := v.tally.exhausted && v.tally.outer > c.limits.maxContainerItems;
    var rest := v.tally.exhausted && v.tally.outer <= c.limits.maxContainerItems;
    && Stays(v.errors.outer, e.outer) && Stays(v.errors.params, e.params)
    && (e.outer.Some? ==> e.outer.value.scope == ScopeEnvelope)
      && (e.params.Some? ==> e.params.value.scope == ScopeParams)
    && (if collect then
          && outcome.error == (if e.outer.Some? then e.outer else e.params)
          && (e.outer.Some? <==> v.errors.outer.Some? || kind != ObjectKind || over)
          && (e.params.Some? <==> v.errors.params.Some? || OutOfPlace(c, v) || rest)
          && (v.errors.outer.None? && e.outer.Some? ==>
                e.outer.value.failure.kind == if over then Resource else Mismatch)
          && (v.errors.params.None? && e.params.Some? ==>
                if rest then e.params.value.failure.kind == Resource
                else OutOfPlace(c, v) && KindIs(v, e.params.value.failure.kind))
        else
          && (v.errors.params.None? ==> (outcome.error.Some? <==> OutOfPlace(c, v)))
          && (outcome.error.Some? ==> OutOfPlace(c, v) && KindIs(v, outcome.error.value.failure.kind)))
    && (outcome.error.None? ==>
          outcome == Outcome(Some(kind), start, end, if CallsTool(v) then v.arguments else NoArguments, None))
  }

  // The kind of an error about raw arguments that are out of place.
  predicate KindIs(v: View, kind: ErrorKind) {
    if CallsTool(v) then kind == Mismatch
    else v.errors.held.Some? && kind == v.errors.held.value.failure.kind
  }

  lemma VerdictErred(c: Setting, t: Tree, layer: Layer, kind: ErrorKind)
    requires Accused(c, t, layer, kind)
    ensures Witnessed(c, t, layer, kind) && !Clean(c, t, layer)
  {
    hide Free, Items, MessageArguments;
    if kind == Syntax || kind == Mismatch {
      NoSuchFault(c, t, TopSpot, 0, Fault(layer, kind));
    }
  }

  // The verdict on a text that was read to its end.
  lemma VerdictEnds(c: Setting, collect: bool, t: Tree, trail: seq<Reading>, v: View, e: Errors, outcome: Outcome)
    requires Tracks(c, collect, t, trail, v) && v.stack == [] && v.overflow == []
    requires Concluded(c, collect, v, e, t.Kind(), t.start, v.position, outcome)
    ensures Verdict(c, collect, t, outcome)
  {
    hide Free, Items, MessageArguments, InStep, Clean;
    if v.errors.outer.Some? {
      VerdictErred(c, t, OuterLayer, v.errors.outer.value.failure.kind);
    } else {
      EndTells(c, collect, t, trail, v);
      if v.errors.params.Some? {
        VerdictErred(c, t, ParamsLayer, v.errors.params.value.failure.kind);
      } else {
        if v.errors.held.Some? {
          VerdictHeld(c, t, v.errors.held.value.failure.kind);
        }
        ArgumentsNeedProtocol(c, t);
      }
    }
  }

  lemma VerdictHeld(c: Setting, t: Tree, kind: ErrorKind)
    requires Accused(c, t, HeldLayer, kind)
    ensures !Clean(c, t, HeldLayer)
    ensures MessageArguments(c, t).Some? && !IsToolCall(c.raw, t) ==> Witnessed(c, t, ParamsLayer, kind)
  {
    hide Free, Items, MessageArguments, LastField;
    if kind == Syntax || kind == Mismatch || kind == Resource {
      NoSuchFault(c, t, TopSpot, 0, Fault(HeldLayer, kind));
    }
  }

  // The first failure, without collection, of a text that has one.
  lemma VerdictStops(c: Setting, t: Tree, failure: Failure)
    requires Deserved(c, t, failure)
    ensures Verdict(c, false, t, Rejected(failure, false))
  {
    hide Free, Items, MessageArguments, Clean;
    if Accused(c, t, OuterLayer, failure.kind) {
      VerdictErred(c, t, OuterLayer, failure.kind);
    } else if Accused(c, t, ParamsLayer, failure.kind) {
      VerdictErred(c, t, ParamsLayer, failure.kind);
    }
  }

  lemma MayStops(c: Setting, t: Tree, failure: Failure)
    requires May(c, false, t, failure)
    ensures Verdict(c, false, t, Rejected(failure, false))
  {
    hide Deserved, Verdict;
    VerdictStops(c, t, failure);
  }

  class Scanner {
    const raw: seq<Byte>
    const limits: Limits
    const mode: Mode
    const collect: bool
    var position: nat
    var totalItems: nat
    var envelopeItems: nat
    var paramsItems: nat
    var envelopeFirst: Option<nat>
    var paramsFirst: Option<nat>
    var containerItemsExhausted: bool
    var stack: seq<Frame>
    var overflow: seq<State>
    var methodName: seq<Byte>
    var methodIsString: bool
    var arguments: Arguments
    var envelopeError: Option<ScopedError>
    var paramsError: Option<ScopedError>
    var deferredError: Option<ScopedError>
    // The syntax tree of the text, and how far the scanner has come in it.
    ghost const tree: Tree
    ghost var trail: seq<Reading>

    constructor (raw: seq<Byte>, limits: Limits, mode: Mode, collect: bool, ghost tree: Tree)
      requires Addressable(raw)
      ensures this.raw == raw && this.limits == limits && this.mode == mode && this.collect == collect
      ensures this.tree == tree && trail == []
      ensures Look() == View(0, [], [], Errors(None, None, None), Tally(0, 0, false), Called(false, []), NoArguments)
      ensures Valid() && position == 0 && stack == [] && overflow == []
      ensures envelopeError == None && paramsError == None
    {
      this.raw, this.limits, this.mode, this.collect := raw, limits, mode, collect;
      position, totalItems, envelopeItems, paramsItems := 0, 0, 0, 0;
      envelopeFirst, paramsFirst := None, None;
      containerItemsExhausted := false;
      stack, overflow := [], [];
      methodName, methodIsString, arguments := [], false, NoArguments;
      envelopeError, paramsError, deferredError := None, None, None;
      this.tree, trail := tree, [];
    }

    ghost predicate Valid()
      reads this
    {
      && Addressable(raw)
      && position <= |raw|
      && StackValid(stack, overflow, limits.maxDepth, collect)
      && ErrorsValid()
    }

    // Recorded errors name the layer they are filed under and are never malformed text.
    ghost predicate ErrorsValid()
      reads this`envelopeError, this`paramsError, this`deferredError
    {
      && (deferredError.Some? ==> !Malformed(raw, deferredError.value.failure))
      && (envelopeError.Some? ==>
        envelopeError.value.scope == ScopeEnvelope && !Malformed(raw, envelopeError.value.failure))
      && (paramsError.Some? ==> paramsError.value.scope == ScopeParams && !Malformed(raw, paramsError.value.failure))
    }

    // ---- Seen from the specification ----

    ghost function Setup(): Setting {
      Setting(raw, limits, mode)
    }

    ghost function Errs(): Errors
      reads this`envelopeError, this`paramsError, this`deferredError
    {
      Errors(envelopeError, paramsError, deferredError)
    }

    ghost function Tallies(): Tally
      reads this`totalItems, this`envelopeItems, this`containerItemsExhausted
    {
      Tally(totalItems, envelopeItems, containerItemsExhausted)
    }

    ghost function Look(): View
      reads this
    {
      View(position, stack, overflow, Errs(), Tallies(), Called(methodIsString, methodName), arguments)
    }

    // The scanner is in step with the tree, or its envelope has an error that the tree deserves.
    ghost predicate Tracked()
      reads this
    {
      Tracks(Setup(), collect, tree, trail, Look())
    }

    // A step leaves the scanner tracked, or fails where it may.
    ghost predicate Stepped(failure: Option<Failure>)
      reads this
    {
      match failure
      case None => Tracked()
      case Some(f) => May(Setup(), collect, tree, f)
    }

    // ---- Errors ----

    function ScopeHasError(scope: Scope): bool
      reads this`envelopeError, this`paramsError
    {
      collect &&
      ((scope == ScopeEnvelope && envelopeError.Some?) ||
       (scope == ScopeParams && (envelopeError.Some? || paramsError.Some?)))
    }

    // Files a failure under its layer, keeping the first of each; malformed text is never filed.
    method RecordRecoverable(failure: Failure, scope: Scope, deferred: bool) returns (recorded: bool)
      requires Valid() && (collect ==> ProtocolScope(scope))
      modifies this`envelopeError, this`paramsError, this`deferredError
      ensures Valid()
      ensures recorded <==>
        !Malformed(raw, failure) &&
        (collect || (deferred && mode == ProtocolWithRawArguments
          && (failure.kind == Duplicate || failure.kind == Unicode)))
      ensures !recorded ==> unchanged(this)
      ensures !collect && recorded ==> deferred && (failure.kind == Duplicate || failure.kind == Unicode)
      ensures old(envelopeError).Some? ==> envelopeError == old(envelopeError)
      ensures old(paramsError).Some? ==> paramsError == old(paramsError)
      ensures old(deferredError).Some? ==> deferredError == old(deferredError)
      ensures Bounded(collect, scope, old(Errs()), Errs())
      ensures recorded && (Placed(mode, collect, scope, deferred) || failure.kind == Resource) ==>
        Files(FiledUnder(scope, deferred, failure.kind), failure, old(Errs()), Errs())
      ensures
        var held := deferred && mode == ProtocolWithRawArguments
            && (failure.kind == Duplicate || failure.kind == Unicode);
        && (recorded && held ==>
          deferredError.Some? && envelopeError == old(envelopeError) && paramsError == old(paramsError))
        && (recorded && !held && scope == ScopeEnvelope ==>
              paramsError == old(paramsError) && deferredError == old(deferredError) &&
              envelopeError == if old(envelopeError).Some? then old(envelopeError)
                else Some(ScopedError(failure, ScopeEnvelope)))
        && (recorded && !held && scope == ScopeParams ==>
              envelopeError == old(envelopeError) && deferredError == old(deferredError) &&
              paramsError == if old(paramsError).Some? then old(paramsError)
                else Some(ScopedError(failure, ScopeParams)))
    {
      match failure.kind {
        case Syntax =>
          return false;
        case Unicode =>
          if failure.position >= |raw| || raw[failure.position] != 0x5C {
            return false;
          }
        case _ =>
      }
      if deferred && mode == ProtocolWithRawArguments && (failure.kind == Duplicate || failure.kind == Unicode) {
        if deferredError.None? {
          deferredError := Some(ScopedError(failure, if collect then scope else ScopeValue));
        }
        return true;
      }
      if !collect {
        return false;
      }
      if scope == ScopeEnvelope {
        if envelopeError.None? {
          envelopeError := Some(ScopedError(failure, scope));
        }
      } else {
        if paramsError.None? {
          paramsError := Some(ScopedError(failure, scope));
        }
      }
      return true;
    }

    // ---- Tokens ----

    method SkipWhitespace()
      requires position <= |raw|
      modifies this`position
      ensures old(position) <= position <= |raw|
      ensures Space(raw, old(position), position) && Blocked(raw, position)
    {
      while position < |raw| && IsSpace(raw[position])
        invariant old(position) <= position <= |raw| && Space(raw, old(position), position)
      {
        position := position + 1;
      }
    }

    method Take(want: Byte) returns (taken: bool)
      modifies this`position
      ensures taken <==> old(position) < |raw| && raw[old(position)] == want
      ensures position == if taken then old(position) + 1 else old(position)
    {
      taken := position < |raw| && raw[position] == want;
      if taken {
        position := position + 1;
      }
    }

    method ConsumeLiteral(want: seq<Byte>) returns (failure: Option<Failure>)
      requires position <= |raw|
      modifies this`position
      ensures failure.None? <==> Spelled(raw, old(position), old(position) + |want|, want)
      ensures failure.None? ==> position == old(position) + |want| <= |raw|
      ensures failure.Some? ==> position == old(position) && Malformed(raw, failure.value)
    {
      var start := position;
      var offset := 0;
      while offset < |want|
        invariant 0 <= offset <= |want| && start + offset <= |raw| && position == start
        invariant raw[start..start + offset] == want[..offset]
      {
        var at := start + offset;
        if at >= |raw| {
          return Some(Failure(Syntax, |raw|));
        }
        if raw[at] != want[offset] {
          NotSpelled(raw, start, want, offset);
          return Some(InvalidAt(raw, at));
        }
        assert raw[start..at + 1] == raw[start..at] + [raw[at]];
        assert want[..offset + 1] == want[..offset] + [want[offset]];
        offset := offset + 1;
      }
      assert want[..|want|] == want;
      position := position + |want|;
      return None;
    }

    // ---- Numbers ----

    // At least one digit, and as many as there are.
    method TakeDigits(start: nat, limit: nat) returns (failure: Option<Failure>)
      requires start <= position <= |raw| && position - start <= limit
      modifies this`position
      ensures old(position) <= position <= |raw|
      ensures Report(failure) == Limited(raw, start, limit, DigitsReach(raw, old(position)))
    {
      if position >= |raw| || !IsDigit(raw[position]) {
        return Some(InvalidAt(raw, position));
      }
      while position < |raw| && IsDigit(raw[position])
        invariant old(position) <= position <= |raw| && position - start <= limit
        invariant RunEnd(raw, position) == RunEnd(raw, old(position))
      {
        position := position + 1;
        if position - start > limit {
          return Some(Failure(Resource, position - 1));
        }
      }
      return None;
    }

    // The position reached, or the failure, as one value.
    ghost function Report(failure: Option<Failure>): Result<nat>
      reads this`position
    {
      match failure
      case None => Ok(position)
      case Some(f) => Err(f)
    }

    method TakeInteger(start: nat, limit: nat) returns (failure: Option<Failure>)
      requires start <= position <= |raw| && position - start <= limit
      modifies this`position
      ensures old(position) <= position <= |raw|
      ensures Report(failure) == Limited(raw, start, limit, IntegerReach(raw, old(position)))
    {
      if position >= |raw| {
        return Some(Failure(Syntax, |raw|));
      }
      var zero := Take(0x30);
      if zero {
        if position - start > limit {
          return Some(Failure(Resource, position - 1));
        }
        return None;
      }
      failure := TakeDigits(start, limit);
    }

    method TakeFraction(start: nat, limit: nat) returns (failure: Option<Failure>)
      requires start <= position <= |raw| && position - start <= limit
      modifies this`position
      ensures old(position) <= position <= |raw|
      ensures Report(failure) == Limited(raw, start, limit, FractionReach(raw, old(position)))
    {
      var point := Take(0x2E);
      if !point {
        return None;
      }
      if position - start > limit {
        DigitsReachOn(raw, position);
        return Some(Failure(Resource, position - 1));
      }
      failure := TakeDigits(start, limit);
    }

    method TakeExponent(start: nat, limit: nat) returns (failure: Option<Failure>)
      requires start <= position <= |raw| && position - start <= limit
      modifies this`position
      ensures old(position) <= position <= |raw|
      ensures Report(failure) == Limited(raw, start, limit, ExponentReach(raw, old(position)))
    {
      if position >= |raw| || (raw[position] != 0x65 && raw[position] != 0x45) {
        return None;
      }
      position := position + 1;
      DigitsReachOn(raw, position);
      if position < |raw| {
        DigitsReachOn(raw, position + 1);
      }
      if position - start > limit {
        return Some(Failure(Resource, position - 1));
      }
      var sign := Take(0x2B);
      if !sign {
        sign := Take(0x2D);
      }
      if sign && position - start > limit {
        return Some(Failure(Resource, position - 1));
      }
      failure := TakeDigits(start, limit);
    }

    method ScanNumber(limit: nat) returns (failure: Option<Failure>)
      requires position < |raw|
      modifies this`position
      ensures old(position) <= position <= |raw|
      ensures Report(failure) == NumberResult(raw, old(position), limit)
    {
      hide IntegerReach, FractionReach, ExponentReach;
      var start := position;
      ReachesOn(raw, start);
      var minus := Take(0x2D);
      if minus && position - start > limit {
        return Some(Failure(Resource, position - 1));
      }
      failure := TakeInteger(start, limit);
      if failure.None? {
        failure := TakeFraction(start, limit);
      }
      if failure.None? {
        failure := TakeExponent(start, limit);
      }
    }

    method ScanNumberRecovering(scope: Scope, deferred: bool, ghost end: nat) returns (failure: Option<Failure>)
      requires Valid() && position < |raw| && (collect ==> ProtocolScope(scope))
      modifies this`position, this`envelopeError, this`paramsError, this`deferredError
      ensures Valid()
      ensures
        var reach := NumberReach(raw, old(position));
        match failure
        case None => reach.End? && position == reach.position
        case Some(f) => (Malformed(raw, f) ==> reach.Stop?) && (collect ==> Malformed(raw, f))
      ensures !collect && !deferred ==>
        (failure.None? <==> NumberResult(raw, old(position), limits.maxNumberRawBytes).Ok?)
      ensures Bounded(collect, scope, old(Errs()), Errs())
      ensures
        NumberScanned(Setup(), collect, scope, old(position), end, old(Errs()), Errs(), position, failure)
    {
      hide NumberReach, StackValid;
      var start := position;
      failure := ScanNumber(if ScopeHasError(scope) then NO_LIMIT else limits.maxNumberRawBytes);
      if failure.Some? {
        var recorded := RecordRecoverable(failure.value, scope, deferred);
        if recorded {
          position := start;
          failure := ScanNumber(NO_LIMIT);
        }
      }
    }

    // ---- Strings ----

    // Scans a string at `start`, relaxing first the checks and then the limit as failures are filed.
    method ScanText(start: nat, maxDecodedBytes: nat, capture: bool, scope: Scope, deferred: bool, ghost end: nat)
      returns (r: Result<Scanned>)
      requires Valid() && (collect ==> ProtocolScope(scope))
      modifies this`envelopeError, this`paramsError, this`deferredError
      ensures Valid()
      ensures r.Ok? ==> String(raw, start, r.value.end)
      ensures r.Err? ==>
        (Malformed(raw, r.failure) ==> forall e: nat :: !String(raw, start, e))
        && (collect ==> Malformed(raw, r.failure))
      ensures !collect && !deferred ==>
        var plain := StringResult(raw, start, maxDecodedBytes, true);
        (r.Ok? <==> plain.Ok?) && (r.Ok? ==> r.value.end == plain.value.end)
      ensures Bounded(collect, scope, old(Errs()), Errs())
      ensures TextScanned(Setup(), collect, scope, deferred, start, end, maxDecodedBytes, capture, old(Errs()), Errs(),
                          r)
    {
      hide StringResult, String, StackValid, Malformed, Judged, Files, TextScanned, FirstFailed, Bounded, TextFaults;
      ghost var e := Errs();
      BoundedSame(collect, scope, e);
      var checked := !deferred || mode == ProtocolWithRawArguments;
      var recovering := ScopeHasError(scope) || (deferred && deferredError.Some?);
      var limit := if ScopeHasError(scope) then NO_LIMIT else maxDecodedBytes;
      StringResultMeets(raw, start, limit, checked && !recovering);
      r := ScanString(raw, start, limit, capture && checked && !recovering, checked && !recovering);
      var recorded := false;
      if r.Err? {
        recorded := RecordRecoverable(r.failure, scope, deferred);
      }
      ghost var m := Errs();
      FirstDone(Setup(), collect, scope, deferred, start, end, maxDecodedBytes, capture, checked
        && !recovering, e, m, r,
                recorded);
      if recorded {
        ghost var first := r.failure;
        r := RescanText(start, maxDecodedBytes, scope, deferred, end, e, first);
        AgainDone(Setup(), collect, scope, deferred, start, end, maxDecodedBytes, capture, e, first, m, Errs(), r);
      }
    }

    // The same once a failure was filed.
    method RescanText(start: nat, maxDecodedBytes: nat, scope: Scope, deferred: bool, ghost end: nat, ghost e: Errors,
                      ghost first: Failure)
      returns (r: Result<Scanned>)
      requires Valid() && (collect ==> ProtocolScope(scope))
      modifies this`envelopeError, this`paramsError, this`deferredError
      ensures Valid()
      ensures r.Ok? ==> String(raw, start, r.value.end)
      ensures r.Err? ==>
        (Malformed(raw, r.failure) ==> forall e: nat :: !String(raw, start, e))
        && (collect ==> Malformed(raw, r.failure))
      ensures Bounded(collect, scope, old(Errs()), Errs())
      ensures FirstFailed(Setup(), collect, scope, deferred, start, end, maxDecodedBytes, e, first, old(Errs())) ==>
        var faults := TextFaults(raw, start, end, maxDecodedBytes, LayerOf(scope), TextLayerOf(scope, deferred));
        if r.Err? then !collect && Blames(faults, r.failure) else r.value.end == end && Judged(e, faults, Errs())
    {
      hide StringResult, String, StackValid, Malformed, TextFaults, Judged, Files;
      ghost var due := FirstFailed(Setup(), collect, scope, deferred, start, end, maxDecodedBytes, e, first, Errs());
      if due {
        NextScan(Setup(), collect, scope, deferred, start, end, maxDecodedBytes, e, first, Errs());
      }
      var limit := if ScopeHasError(scope) then NO_LIMIT else maxDecodedBytes;
      StringResultMeets(raw, start, limit, false);
      r := ScanString(raw, start, limit, false, false);
      if r.Ok? {
        return;
      }
      var recorded := RecordRecoverable(r.failure, scope, deferred);
      if !recorded {
        return;
      }
      StringResultMeets(raw, start, NO_LIMIT, false);
      if due {
        TextShort(raw, start, end);
        StringMeans(raw, start, end, NO_LIMIT, false);
      }
      r := ScanString(raw, start, NO_LIMIT, false, false);
    }

    // ---- Values ----

    // The depth limit: the first container too deep is reported or filed.
    method ChargeDepth(scope: Scope, deferred: bool) returns (failure: Option<Failure>)
      requires Valid() && position < |raw| && (collect ==> ProtocolScope(scope))
      modifies this`envelopeError, this`paramsError, this`deferredError
      ensures Valid()
      ensures failure == if !collect && |stack| >= limits.maxDepth then Some(Failure(Resource, position)) else None
      ensures |stack| < limits.maxDepth ==>
        envelopeError == old(envelopeError) && paramsError == old(paramsError) && deferredError == old(deferredError)
      ensures collect && |stack| >= limits.maxDepth ==> ScopeHasError(scope)
      ensures Bounded(collect, scope, old(Errs()), Errs())
      ensures failure.None? ==> Judged(old(Errs()), DepthFaults(Setup(), |stack|, LayerOf(scope)), Errs())
    {
      hide StackValid;
      if |stack| >= limits.maxDepth {
        var depth := Failure(Resource, position);
        if !ScopeHasError(scope) {
          var recorded := RecordRecoverable(depth, scope, deferred);
          if !recorded {
            return Some(depth);
          }
        }
      }
      return None;
    }

    method PushContainer(kind: ValueKind, role: Role, scope: Scope, deferred: bool) returns (failure: Option<Failure>)
      requires Valid() && position < |raw| && (collect ==> ProtocolScope(scope))
      requires kind == ObjectKind || kind == ArrayKind
      modifies this`position, this`stack, this`overflow, this`envelopeError, this`paramsError, this`deferredError
      ensures Valid()
      ensures failure.None? ==>
        position == old(position) + 1 && Debt(stack, overflow) == old(Debt(stack, overflow)) + [FirstState(kind)]
      ensures failure.Some? ==> !collect && !Malformed(raw, failure.value)
      ensures
        var compact := old(overflow) != [] || (old(stack) != [] && old(stack)[|old(stack)| - 1].compactChildren);
        && (failure.Some? <==> !collect && !compact && |old(stack)| >= limits.maxDepth)
        && (failure.Some? ==> failure.value == Failure(Resource, old(position)))
        && (failure.None? && compact ==> stack == old(stack) && overflow == old(overflow) + [FirstState(kind)])
        && (failure.None? && !compact ==>
              overflow == [] &&
              stack == old(stack) + [NewFrame(kind, role, scope, deferred, |old(stack)| >= limits.maxDepth,
                                              old(position), collect)])
        && (compact || |old(stack)| < limits.maxDepth ==>
              envelopeError == old(envelopeError) && paramsError == old(paramsError)
                && deferredError == old(deferredError))
        && (collect && !compact && |old(stack)| >= limits.maxDepth ==> ScopeHasError(scope))
        && (failure.None? ==>
              Judged(old(Errs()), if compact then {} else DepthFaults(Setup(), |old(stack)|, LayerOf(scope)), Errs()))
      ensures Bounded(collect, scope, old(Errs()), Errs())
    {
      hide Judged, DepthFaults, Debt, StackValid, ErrorsValid, NewFrame, FrameValid, FirstState;
      var state := FirstState(kind);
      StackShape(stack, overflow, limits.maxDepth, collect);
      if overflow != [] || (stack != [] && stack[|stack| - 1].compactChildren) {
        OverflowPushed(stack, overflow, state, limits.maxDepth, collect);
        JudgedNone(Errs());
        position := position + 1;
        overflow := overflow + [state];
        return None;
      }
      failure := ChargeDepth(scope, deferred);
      if failure.Some? {
        return;
      }
      var compactChildren := |stack| >= limits.maxDepth;
      var frame := NewFrame(kind, role, scope, deferred, compactChildren, position, collect);
      FramePushed(stack, frame, limits.maxDepth, collect);
      position := position + 1;
      stack := stack + [frame];
      return None;
    }

    // Opens a container in the place of a value.
    method ScanContainerValue(kind: ValueKind, role: Role, scope: Scope, deferred: bool, ghost t: Tree)
      returns (r: Result<ValueKind>)
      requires Valid() && position < |raw| && (collect ==> ProtocolScope(scope))
      requires (kind == ObjectKind && raw[position] == 0x7B) || (kind == ArrayKind && raw[position] == 0x5B)
      modifies this`position, this`stack, this`overflow, this`envelopeError, this`paramsError, this`deferredError
      ensures Valid() && (r.Ok? ==> r.value == kind)
      ensures ReadsValue(raw, collect, old(position), old(Debt(stack, overflow)), position, Debt(stack, overflow),
                         if r.Ok? then None else Some(r.failure))
      ensures old(Due(Setup(), collect, t, scope, deferred, position)) ==>
        ValueScanned(Setup(), collect, t, role, scope, deferred, old(Look()), Look(), r)
      ensures Bounded(collect, scope, old(Errs()), Errs())
    {
      hide StackValid, Debt, Completes, ValueThen, Due, Judged, DepthFaults, NewFrame, ValueScanned, Bounded;
      ghost var v := Look();
      ghost var due := Due(Setup(), collect, t, scope, deferred, position);
      if due {
        DueStarts(Setup(), collect, t, scope, deferred, position);
      }
      OpenContainer(raw, position, Debt(stack, overflow));
      var failure := PushContainer(kind, role, scope, deferred);
      if due {
        OpenDone(Setup(), collect, t, role, scope, deferred, v, Look(), kind, failure);
      }
      return if failure.Some? then Err(failure.value) else Ok(kind);
    }

    // Reads a string in the place of a value.
    method ScanStringValue(role: Role, scope: Scope, deferred: bool, ghost t: Tree) returns (r: Result<ValueKind>)
      requires Valid() && position < |raw| && raw[position] == 0x22 && (collect ==> ProtocolScope(scope))
      modifies this`position, this`envelopeError, this`paramsError, this`deferredError
      ensures Valid() && (r.Ok? ==> r.value == StringKind && String(raw, old(position), position))
      ensures ReadsValue(raw, collect, old(position), old(Debt(stack, overflow)), position, Debt(stack, overflow),
                         if r.Ok? then None else Some(r.failure))
      ensures !collect && !deferred ==>
        forall end: nat :: IsText(raw, old(position), limits.maxStringBytes, end) ==> r.Ok? && position == end
      ensures old(Due(Setup(), collect, t, scope, deferred, position)) ==>
        ValueScanned(Setup(), collect, t, role, scope, deferred, old(Look()), Look(), r)
      ensures Bounded(collect, scope, old(Errs()), Errs())
    {
      hide StackValid, Debt, Completes, ValueThen, String, StringResult, Due, Judged, ValueScanned;
      hide TextScanned, Bounded;
      ghost var v := Look();
      ghost var due := Due(Setup(), collect, t, scope, deferred, position);
      if due {
        DueStarts(Setup(), collect, t, scope, deferred, position);
      }
      var start := position;
      StringValue(raw, start, Debt(stack, overflow));
      var text := ScanText(start, limits.maxStringBytes, false, scope, deferred, t.end);
      if text.Err? {
        r := Err(text.failure);
      } else {
        KeyAdvances(raw, start, text.value.end);
        position := text.value.end;
        r := Ok(StringKind);
      }
      if due {
        TextDone(Setup(), collect, t, role, scope, deferred, v, Look(), text, r);
      }
    }

    // Reads a literal name in the place of a value.
    method ScanWordValue(role: Role, scope: Scope, deferred: bool, ghost t: Tree) returns (r: Result<ValueKind>)
      requires Valid() && position < |raw| && StartsWord(raw[position]) && (collect ==> ProtocolScope(scope))
      modifies this`position
      ensures Valid() && (r.Ok? ==> r.value == WordKind(raw[old(position)]))
      ensures ReadsValue(raw, collect, old(position), old(Debt(stack, overflow)), position, Debt(stack, overflow),
                         if r.Ok? then None else Some(r.failure))
      ensures old(Due(Setup(), collect, t, scope, deferred, position)) ==>
        ValueScanned(Setup(), collect, t, role, scope, deferred, old(Look()), Look(), r)
      ensures Bounded(collect, scope, old(Errs()), Errs())
    {
      hide StackValid, Debt, Completes, ValueThen, Spelled, Due, ValueScanned, Bounded, WordAt, WordKind;
      ghost var v := Look();
      ghost var due := Due(Setup(), collect, t, scope, deferred, position);
      if due {
        DueStarts(Setup(), collect, t, scope, deferred, position);
      }
      BoundedSame(collect, scope, Errs());
      var word, kind := WordAt(raw[position]), WordKind(raw[position]);
      LiteralValue(raw, position, word, Debt(stack, overflow));
      var failure := ConsumeLiteral(word);
      if due {
        WordDone(Setup(), collect, t, role, scope, deferred, v, Look(), kind);
      }
      return if failure.Some? then Err(failure.value) else Ok(kind);
    }

    // Reads a number in the place of a value.
    method ScanNumberValue(role: Role, scope: Scope, deferred: bool, ghost t: Tree) returns (r: Result<ValueKind>)
      requires Valid() && position < |raw| && (raw[position] == 0x2D || IsDigit(raw[position]))
      requires (collect ==> ProtocolScope(scope)) && AfterValue(Debt(stack, overflow))
      modifies this`position, this`envelopeError, this`paramsError, this`deferredError
      ensures Valid() && (r.Ok? ==> r.value == NumberKind)
      ensures ReadsValue(raw, collect, old(position), old(Debt(stack, overflow)), position, Debt(stack, overflow),
                         if r.Ok? then None else Some(r.failure))
      ensures !collect && !deferred ==>
        forall end: nat :: IsQuantity(raw, old(position), limits.maxNumberRawBytes, end) ==> r.Ok? && position == end
      ensures old(Due(Setup(), collect, t, scope, deferred, position)) ==>
        ValueScanned(Setup(), collect, t, role, scope, deferred, old(Look()), Look(), r)
      ensures Bounded(collect, scope, old(Errs()), Errs())
    {
      hide StackValid, Debt, Completes, ValueThen, AfterValue, NumberReach, Due, Judged, ValueScanned, NumberScanned,
        Bounded;
      ghost var v := Look();
      ghost var due := Due(Setup(), collect, t, scope, deferred, position);
      if due {
        DueStarts(Setup(), collect, t, scope, deferred, position);
      }
      NumberValue(raw, position, Debt(stack, overflow));
      var failure := ScanNumberRecovering(scope, deferred, t.end);
      r := if failure.Some? then Err(failure.value) else Ok(NumberKind);
      if due {
        NumberDone(Setup(), collect, t, role, scope, deferred, v, Look(), failure, r);
      }
    }

    // Reads a scalar whole, or opens a container.
    method ScanValue(role: Role, scope: Scope, deferred: bool, ghost t: Tree) returns (r: Result<ValueKind>)
      requires Valid() && (collect ==> ProtocolScope(scope))
      requires AfterValue(Debt(stack, overflow))
      modifies this`position, this`stack, this`overflow, this`envelopeError, this`paramsError, this`deferredError
      ensures Valid()
      ensures ReadsValue(raw, collect, old(position), old(Debt(stack, overflow)), position, Debt(stack, overflow),
                         if r.Ok? then None else Some(r.failure))
      ensures r.Ok? && r.value != ObjectKind && r.value != ArrayKind ==>
        stack == old(stack) && overflow == old(overflow)
      ensures r.Ok? && r.value == StringKind ==> exists e: nat :: String(raw, old(position), e)
      ensures !collect && !deferred ==>
        forall end: nat :: IsText(raw, old(position), limits.maxStringBytes, end) ==>
          r == Ok(StringKind) && position == end
      ensures !collect && !deferred ==>
        forall end: nat :: IsQuantity(raw, old(position), limits.maxNumberRawBytes, end) ==>
          r == Ok(NumberKind) && position == end
      ensures old(Due(Setup(), collect, t, scope, deferred, position)) ==>
        ValueScanned(Setup(), collect, t, role, scope, deferred, old(Look()), Look(), r)
      ensures Bounded(collect, scope, old(Errs()), Errs())
    {
      hide StackValid, Debt, AfterValue, ValueThen, String, Due, ValueScanned, Bounded, IsText, IsQuantity, WordKind;
      var start := position;
      if Due(Setup(), collect, t, scope, deferred, position) {
        DueStarts(Setup(), collect, t, scope, deferred, position);
      }
      ScalarStarts(raw, start, limits);
      if position >= |raw| {
        NoValue(raw, start, Debt(stack, overflow));
        BoundedSame(collect, scope, Errs());
        return Err(Failure(Syntax, |raw|));
      }
      if raw[start] == 0x7B {
        r := ScanContainerValue(ObjectKind, role, scope, deferred, t);
      } else if raw[start] == 0x5B {
        r := ScanContainerValue(ArrayKind, role, scope, deferred, t);
      } else if raw[start] == 0x22 {
        r := ScanStringValue(role, scope, deferred, t);
      } else if StartsWord(raw[start]) {
        r := ScanWordValue(role, scope, deferred, t);
      } else if raw[start] == 0x2D || IsDigit(raw[start]) {
        r := ScanNumberValue(role, scope, deferred, t);
      } else {
        NoValue(raw, start, Debt(stack, overflow));
        BoundedSame(collect, scope, Errs());
        return Err(InvalidAt(raw, start));
      }
    }

    // ---- Counting items ----

    method ChargeProtocolItem(at: nat, scope: Scope)
      modifies this`totalItems, this`envelopeItems, this`paramsItems, this`envelopeFirst, this`paramsFirst,
        this`containerItemsExhausted
      ensures totalItems == Saturated(old(totalItems))
      ensures envelopeItems == if scope == ScopeEnvelope then Saturated(old(envelopeItems)) else old(envelopeItems)
      ensures paramsItems == if scope == ScopeParams then Saturated(old(paramsItems)) else old(paramsItems)
      ensures scope == ScopeEnvelope && old(envelopeFirst).None? ==> envelopeFirst == Some(at)
      ensures scope == ScopeParams && old(paramsFirst).None? ==> paramsFirst == Some(at)
      ensures scope != ScopeEnvelope || old(envelopeFirst).Some? ==> envelopeFirst == old(envelopeFirst)
      ensures scope != ScopeParams || old(paramsFirst).Some? ==> paramsFirst == old(paramsFirst)
      ensures containerItemsExhausted <==> old(containerItemsExhausted) || totalItems > limits.maxContainerItems
    {
      totalItems := Saturated(totalItems);
      if scope == ScopeEnvelope {
        if envelopeFirst.None? {
          envelopeFirst := Some(at);
        }
        envelopeItems := Saturated(envelopeItems);
      } else if scope == ScopeParams {
        if paramsFirst.None? {
          paramsFirst := Some(at);
        }
        paramsItems := Saturated(paramsItems);
      }
      if totalItems > limits.maxContainerItems {
        containerItemsExhausted := true;
      }
    }

    method ChargeItem(at: nat, scope: Scope, deferred: bool) returns (failure: Option<Failure>)
      requires Valid() && (collect ==> ProtocolScope(scope))
      modifies this`totalItems, this`envelopeItems, this`paramsItems, this`envelopeFirst, this`paramsFirst,
               this`containerItemsExhausted, this`envelopeError, this`paramsError, this`deferredError
      ensures Valid()
      ensures failure.Some? ==> !collect && failure.value == Failure(Resource, at)
      ensures !collect ==> (failure.Some? <==> old(totalItems) >= limits.maxContainerItems)
      ensures Errs() == old(Errs())
      ensures if failure.Some? then Tallies() == old(Tallies())
              else ItemCharged(Setup(), collect, scope, old(Tallies()), Tallies())
    {
      hide StackValid;
      if collect {
        ChargeProtocolItem(at, scope);
        return None;
      }
      if totalItems >= limits.maxContainerItems {
        var recorded := RecordRecoverable(Failure(Resource, at), scope, deferred);
        return if recorded then None else Some(Failure(Resource, at));
      }
      totalItems := totalItems + 1;
      return None;
    }

    // Charges a member to its object and to the document; the frame changes only in its count.
    method ChargeObjectMember() returns (failure: Option<Failure>)
      requires Valid() && stack != [] && overflow == []
      modifies this`stack, this`totalItems, this`envelopeItems, this`paramsItems, this`envelopeFirst, this`paramsFirst,
               this`containerItemsExhausted, this`envelopeError, this`paramsError, this`deferredError
      ensures Valid()
      ensures failure.Some? ==> !collect && !Malformed(raw, failure.value)
      ensures |stack| == old(|stack|) && Debt(stack, []) == old(Debt(stack, []))
      ensures
        var frame, was := stack[|stack| - 1], old(stack[|stack| - 1]);
        stack[..|stack| - 1] == old(stack[..|stack| - 1]) &&
        frame == was.(members := frame.members, membersExhausted := frame.membersExhausted) &&
        (failure.None? && was.members < limits.maxObjectMembers ==>
          frame.members == was.members + 1 || was.membersExhausted)
      ensures MemberCharged(Setup(), collect, old(stack[|stack| - 1]), stack[|stack| - 1], old(Tallies()), Tallies(),
                            old(Errs()), Errs(), failure)
    {
      hide StackValid, Debt, ItemCharged;
      var top := |stack| - 1;
      StackShape(stack, overflow, limits.maxDepth, collect);
      var frame := stack[top];
      if !frame.membersExhausted && frame.members >= limits.maxObjectMembers {
        frame := frame.(membersExhausted := true);
        FrameReplaced(stack, frame, limits.maxDepth, collect);
        stack := stack[top := frame];
        failure := Some(Failure(Resource, position));
        if !ScopeHasError(frame.scope) {
          var recorded := RecordRecoverable(failure.value, frame.scope, frame.deferred);
          if !recorded {
            return;
          }
        }
      }
      failure := ChargeItem(position, frame.scope, frame.deferred);
      if failure.Some? {
        return;
      }
      if !frame.membersExhausted {
        frame := frame.(members := frame.members + 1);
        FrameReplaced(stack, frame, limits.maxDepth, collect);
        stack := stack[top := frame];
      }
    }

    // ---- One step of the machine ----

    // Replaces the state of the container being read.
    method SetState(state: State)
      requires Valid() && stack != [] && overflow == []
      requires FrameValid(stack[|stack| - 1].(state := state), collect)
      modifies this`stack
      ensures Valid()
      ensures stack == old(stack[|stack| - 1 := stack[|stack| - 1].(state := state)])
      ensures Debt(stack, []) == old(Debt(stack[..|stack| - 1], [])) + [state]
    {
      hide StackValid, Debt;
      var frame := stack[|stack| - 1].(state := state);
      FrameReplaced(stack, frame, limits.maxDepth, collect);
      stack := stack[|stack| - 1 := frame];
    }

    method CloseContainer()
      requires Valid() && stack != [] && overflow == []
      modifies this`stack, this`arguments
      ensures Valid()
      ensures Debt(stack, []) == old(Debt(stack[..|stack| - 1], [])) && stack == old(stack)[..|old(stack)| - 1]
      ensures arguments == if old(stack[|stack| - 1]).role == RawArguments
                           then ArgumentsAt(old(stack[|stack| - 1]).kind, old(stack[|stack| - 1]).start, position)
                           else old(arguments)
    {
      hide StackValid, Debt;
      var frame := stack[|stack| - 1];
      FramePopped(stack, limits.maxDepth, collect);
      if frame.role == RawArguments {
        arguments := ArgumentsAt(frame.kind, frame.start, position);
      }
      stack := stack[..|stack| - 1];
    }

    // A separator was taken: the container goes on.
    method GoOn(next: State, ghost v: View)
      requires Valid() && stack != [] && overflow == []
      requires FrameValid(stack[|stack| - 1].(state := next), collect)
      modifies this`stack, this`trail
      ensures Valid()
      ensures Debt(stack, []) == old(Debt(stack[..|stack| - 1], [])) + [next]
      ensures old(Separated(Setup(), collect, tree, trail, v, Look(), next)) ==> Tracked()
    {
      hide StackValid, Debt, Tracks;
      ghost var separated := Separated(Setup(), collect, tree, trail, v, Look(), next);
      SetState(next);
      if separated {
        SeparatorTracks(Setup(), collect, tree, trail, v, Look());
        trail := Beyond(trail, next);
      }
    }

    // A closing bracket was taken: the container is done.
    method Finish(ghost v: View)
      requires Valid() && stack != [] && overflow == []
      modifies this`stack, this`arguments, this`trail
      ensures Valid()
      ensures Debt(stack, []) == old(Debt(stack[..|stack| - 1], []))
      ensures old(Bracketed(Setup(), collect, tree, trail, v, Look())) ==> Tracked()
    {
      hide StackValid, Debt, Tracks;
      ghost var bracketed := Bracketed(Setup(), collect, tree, trail, v, Look());
      CloseContainer();
      if bracketed {
        CloseTracks(Setup(), collect, tree, trail, v, Look());
        trail := Under(trail);
      }
    }

    // The key a failed decoding still recognises.
    method KnownProtocolKey(role: Role, start: nat, end: nat) returns (key: seq<Byte>)
      requires Addressable(raw) && String(raw, start, end)
      ensures StringResult(raw, start, NO_LIMIT, false).Ok?
      ensures
        var text := StringResult(raw, start, NO_LIMIT, false).value.decoded;
        var names := KnownKeys(role);
        key == if text in names then text else []
      ensures Text(raw, start, end) == [] ==> key == []
    {
      hide String, StringResult, Text;
      LenientEnd(raw, start, end);
      StringMeans(raw, start, end, NO_LIMIT, false);
      var names := KnownKeys(role);
      var k := 0;
      while k < |names|
        invariant 0 <= k <= |names|
        invariant forall j :: 0 <= j < k ==> names[j] != StringResult(raw, start, NO_LIMIT, false).value.decoded
      {
        var same := KeyEquals(raw, start, end, names[k]);
        if same {
          return names[k];
        }
        k := k + 1;
      }
      return [];
    }

    // Remembers a key in its object, or files it as a duplicate.
    method NoteKey(key: seq<Byte>, end: nat) returns (failure: Option<Failure>)
      requires Valid() && stack != [] && overflow == [] && end <= |raw|
      requires stack[|stack| - 1].kind == ObjectKind
      modifies this`position, this`stack, this`envelopeError, this`paramsError, this`deferredError
      ensures Valid()
      ensures failure.Some? ==> !collect && !Malformed(raw, failure.value)
      ensures failure.None? ==>
        position == end && Debt(stack, []) == old(Debt(stack[..|stack| - 1], [])) + [ObjectColon]
      ensures
        var top := old(stack[|stack| - 1]);
        var checks := old((!top.deferred || mode == ProtocolWithRawArguments) && !ScopeHasError(top.scope)
                          && !(top.deferred && deferredError.Some?));
        && (failure.Some? <==>
          !collect && checks && key in top.seenKeys && !(top.deferred && mode == ProtocolWithRawArguments))
        && (failure.Some? ==> failure.value == Failure(Duplicate, old(position)))
        && (failure.None? ==>
              stack == old(stack)[|old(stack)| - 1 :=
                top.(pendingKey := key, state := ObjectColon, seenKeys := if checks then top.seenKeys + {key}
                  else top.seenKeys)])
        && (!checks || key !in top.seenKeys ==>
              envelopeError == old(envelopeError) && paramsError == old(paramsError)
                && deferredError == old(deferredError))
        && (checks && key in top.seenKeys && failure.None? ==>
              if top.deferred && mode == ProtocolWithRawArguments then deferredError.Some?
                else ScopeHasError(top.scope))
      ensures |stack| == |old(stack)| && Keeps(old(Errs()), Errs())
      ensures Placed(mode, collect, old(stack[|stack| - 1]).scope, old(stack[|stack| - 1]).deferred) ==>
        KeyNoted(Setup(), collect, key, old(stack[|stack| - 1]), stack[|stack| - 1], old(Errs()), Errs(),
                 old(position), failure)
    {
      hide StackValid, Debt;
      var top := |stack| - 1;
      StackShape(stack, overflow, limits.maxDepth, collect);
      var frame := stack[top];
      var checked := !frame.deferred || mode == ProtocolWithRawArguments;
      var recovering := ScopeHasError(frame.scope) || (frame.deferred && deferredError.Some?);
      if checked && !recovering {
        if key in frame.seenKeys {
          var duplicate := Failure(Duplicate, position);
          var recorded := RecordRecoverable(duplicate, frame.scope, frame.deferred);
          if !recorded {
            return Some(duplicate);
          }
          assert frame.seenKeys + {key} == frame.seenKeys;
        } else {
          frame := frame.(seenKeys := frame.seenKeys + {key});
        }
      }
      frame := frame.(pendingKey := key, state := ObjectColon);
      FrameReplaced(stack, frame, limits.maxDepth, collect);
      stack := stack[top := frame];
      position := end;
      return None;
    }

    // Reads a key of the frame, decoded where its text still matters; `read` is what the string itself gave.
    method ScanKeyText(frame: Frame) returns (text: Result<Scanned>, ghost read: Result<Scanned>)
      requires Valid() && (collect ==> ProtocolScope(frame.scope))
      modifies this`envelopeError, this`paramsError, this`deferredError
      ensures Valid()
      ensures text.Ok? ==> String(raw, position, text.value.end)
      ensures text.Err? ==>
        (Malformed(raw, text.failure) ==> forall e: nat :: !String(raw, position, e))
        && (collect ==> Malformed(raw, text.failure))
      ensures KeyScanned(Setup(), collect, frame, position, KeyEnd(trail), old(Errs()), Errs(), read)
      ensures if text.Err? then read == text
              else KeyIs(Setup(), position, read, text.value.decoded) && read.value.end == text.value.end
    {
      hide StackValid, String, StringResult, TextScanned, Text;
      var checked := !frame.deferred || mode == ProtocolWithRawArguments;
      var capture := checked && !ScopeHasError(frame.scope) && !(frame.deferred && deferredError.Some?);
      text := ScanText(position, limits.maxKeyBytes, capture, frame.scope, frame.deferred, KeyEnd(trail));
      read := text;
      if text.Ok? && text.value.decoded == [] && collect {
        var key := KnownProtocolKey(frame.role, position, text.value.end);
        text := Ok(Scanned(key, text.value.end));
      }
    }

    // Reads and notes a key that was charged; `v` is the view before that.
    method TakeKey(ghost v: View, ghost below: seq<State>) returns (failure: Option<Failure>)
      requires Valid() && stack != [] && overflow == [] && position < |raw| && Blocked(raw, position)
      requires stack[|stack| - 1].kind == ObjectKind && below == Debt(stack[..|stack| - 1], [])
      modifies this
      ensures Valid()
      ensures Moves(raw, collect, old(position), below + [ObjectKey], position, Debt(stack, overflow), failure)
      ensures AtKey(Setup(), collect, tree, old(trail), v) && old(KeyCharged(v)) ==> Stepped(failure)
    {
      hide StackValid, Debt, Completes, String, StringResult, Tracks, MemberCharged, KeyScanned, KeyNoted, May, KeyNext,
        KeyIs, ErrorsValid, AtKey, KeyEnd;
      var top := |stack| - 1;
      ghost var start := position;
      ghost var tracked := AtKey(Setup(), collect, tree, trail, v) && KeyCharged(v);
      StackShape(stack, overflow, limits.maxDepth, collect);
      var frame := stack[top];
      ghost var t, m := Tallies(), Errs();
      ghost var read;
      var text;
      text, read := ScanKeyText(frame);
      ghost var l := Errs();
      if text.Err? {
        if Malformed(raw, text.failure) {
          NoKey(raw, start, below);
        }
        if tracked {
          KeyTextStops(Setup(), collect, tree, trail, v, frame, t, m, l, read);
        }
        return Some(text.failure);
      }
      KeyAdvances(raw, start, text.value.end);
      KeyStep(raw, start, text.value.end, below);
      failure := NoteKey(text.value.decoded, text.value.end);
      if tracked {
        if failure.Some? {
          KeyStops(Setup(), collect, tree, trail, v, frame, stack[top], t, m, l, Errs(), read, text.value.decoded,
                   failure.value);
        } else {
          KeyGoesOn(Setup(), collect, tree, trail, v, Look(), frame, m, l, read, text.value.decoded);
          trail := KeyNext(trail);
        }
      }
    }

    // The scanner differs from the view by a member that was charged.
    ghost predicate KeyCharged(v: View)
      reads this
    {
      && v.stack != [] && stack != [] && |stack| == |v.stack|
      && stack[..|v.stack| - 1] == v.stack[..|v.stack| - 1]
      && Look() == v.(stack := stack, errors := Errs(), tally := Tallies())
      && MemberCharged(Setup(), collect, v.stack[|v.stack| - 1], stack[|stack| - 1], v.tally, Tallies(), v.errors,
                       Errs(),
                       None)
    }

    method ScanObjectKey() returns (failure: Option<Failure>)
      requires Valid() && stack != [] && overflow == [] && Blocked(raw, position)
      requires stack[|stack| - 1].state == ObjectKey || stack[|stack| - 1].state == ObjectFirstKeyOrEnd
      requires stack[|stack| - 1].state == ObjectFirstKeyOrEnd ==> !(position < |raw| && raw[position] == 0x7D)
      modifies this
      ensures Valid()
      ensures Moves(raw, collect, old(position), old(Debt(stack, overflow)), position, Debt(stack, overflow), failure)
      ensures old(Tracked()) ==> Stepped(failure)
    {
      hide StackValid, Debt, Completes, String, StringResult, Tracks, MemberCharged, May;
      ghost var v := Look();
      ghost var tracked := AtKey(Setup(), collect, tree, trail, v);
      var top := |stack| - 1;
      ghost var below := Debt(stack[..top], []);
      ghost var start := position;
      StackShape(stack, overflow, limits.maxDepth, collect);
      FrameReplaced(stack, stack[top], limits.maxDepth, collect);
      if stack[top].state == ObjectFirstKeyOrEnd {
        OpenFirst(raw, start, below, ObjectFirstKeyOrEnd);
      }
      if position >= |raw| || raw[position] != 0x22 {
        NoStringHere(raw, start);
        NoKey(raw, start, below);
        failure := Some(InvalidAt(raw, position));
        if tracked {
          KeyUnquoted(Setup(), collect, tree, trail, v, failure.value);
        }
        return;
      }
      failure := ChargeObjectMember();
      if failure.Some? {
        if tracked {
          MemberStops(Setup(), collect, tree, trail, v, stack[top], Tallies(), Errs(), failure.value);
        }
        return;
      }
      failure := TakeKey(v, below);
    }

    // The method's name decides at the end whether the arguments are a tool's own.
    method NoteMethod(kind: ValueKind, start: nat) returns (failure: Option<Failure>)
      requires Valid() && (kind == StringKind ==> exists e: nat :: String(raw, start, e))
      modifies this`methodName, this`methodIsString, this`envelopeError, this`paramsError, this`deferredError
      ensures Valid()
      ensures failure.Some? ==> !collect && !Malformed(raw, failure.value)
      ensures Keeps(old(Errs()), Errs())
      ensures MethodNoted(Setup(), kind, start, old(Errs()), Errs(), old(Called(methodIsString, methodName)),
                          Called(methodIsString, methodName), failure)
    {
      hide StackValid, String, StringResult;
      methodIsString := kind == StringKind;
      if methodIsString && !ScopeHasError(ScopeEnvelope) {
        var text := ScanString(raw, start, NO_LIMIT, true, true);
        StringResultMeets(raw, start, NO_LIMIT, true);
        if text.Err? {
          var recorded := RecordRecoverable(text.failure, ScopeEnvelope, false);
          return if recorded then None else Some(text.failure);
        }
        methodName := text.value.decoded;
      }
      return None;
    }

    // Reads the value that the container on top waits for, which then waits for what follows it.
    method TakeValue(after: State, role: Role, scope: Scope, deferred: bool, ghost v: View)
      returns (value: Result<ValueKind>, ghost u: View)
      requires Valid() && stack != [] && overflow == [] && (collect ==> ProtocolScope(scope))
      requires after == ObjectCommaOrEnd || after == ArrayCommaOrEnd
      requires FrameValid(stack[|stack| - 1].(state := after), collect)
      modifies this`position, this`stack, this`overflow, this`envelopeError, this`paramsError, this`deferredError
      ensures Valid()
      ensures ReadsValue(raw, collect, old(position), old(Debt(stack[..|stack| - 1], [])) + [after], position,
                         Debt(stack, overflow), if value.Ok? then None else Some(value.failure))
      ensures value.Ok? && value.value == StringKind ==> exists e: nat :: String(raw, old(position), e)
      ensures v.stack != [] && v.position == old(position) && old(Charged(v)) && after == After(TopState(v))
                && AtDue(Setup(), collect, tree, trail, v, role, scope, deferred) ==>
              Begins(Setup(), collect, tree, trail, v, u, Look(), role, scope, deferred, value)
    {
      hide StackValid, Debt, Completes, ValueThen, String, Tracks, Due, ValueScanned, DueValue, AtDue, ItemCharged;
      SetState(after);
      u := Look();
      value := ScanValue(role, scope, deferred, DueValue(trail));
    }

    // The scanner differs from the view by an element that was charged, if its container is an array.
    ghost predicate Charged(v: View)
      requires v.stack != []
      reads this
    {
      v.overflow == [] && Look() == v.(tally := Tallies()) &&
      if TopState(v) == ObjectValue then Tallies() == v.tally
      else ItemCharged(Setup(), collect, v.stack[|v.stack| - 1].scope, v.tally, Tallies())
    }

    // The method's name and raw arguments that are no container are noted at once.
    method NoteValue(frame: Frame, role: Role, kind: ValueKind, start: nat, ghost v: View, ghost u: View,
                     ghost scope: Scope, ghost deferred: bool)
      returns (failure: Option<Failure>)
      requires Valid() && v.stack != [] && frame == v.stack[|v.stack| - 1]
      requires v.overflow == [] && frame.kind == ObjectKind
      requires start == v.position && (kind == StringKind ==> exists e: nat :: String(raw, start, e))
      modifies this`methodName, this`methodIsString, this`arguments, this`envelopeError, this`paramsError,
        this`deferredError, this`trail
      ensures Valid()
      ensures failure.Some? ==> !collect && !Malformed(raw, failure.value)
      ensures old(Begins(Setup(), collect, tree, trail, v, u, Look(), role, scope, deferred, Ok(kind))) ==>
        Stepped(failure)
    {
      hide StackValid, String, Tracks, MethodNoted, May, ValueNext, Begins, ValueNoted;
      ghost var x := Look();
      ghost var tracked := Begins(Setup(), collect, tree, trail, v, u, x, role, scope, deferred, Ok(kind));
      if tracked {
        BeginsSame(Setup(), collect, tree, trail, v, u, x, role, scope, deferred, Ok(kind));
      }
      if frame.role == Root && frame.pendingKey == METHOD_KEY {
        failure := NoteMethod(kind, start);
        if failure.Some? {
          if tracked {
            BeginsUnnamed(Setup(), collect, tree, trail, v, u, x, Errs(), role, scope, deferred, kind,
                          Called(methodIsString, methodName), failure.value);
          }
          return;
        }
      }
      if role == RawArguments && kind != ObjectKind && kind != ArrayKind {
        arguments := ArgumentsAt(kind, start, position);
      }
      if tracked {
        NotedSo(Setup(), v, frame, x, Look(), role, kind);
        BeginsAndEnds(Setup(), collect, tree, trail, v, u, x, Look(), role, scope, deferred, kind);
        trail := ValueNext(Setup(), trail);
      }
      return None;
    }

    method ScanObjectValue() returns (failure: Option<Failure>)
      requires Valid() && stack != [] && overflow == [] && Blocked(raw, position)
      requires stack[|stack| - 1].state == ObjectValue
      modifies this
      ensures Valid()
      ensures Moves(raw, collect, old(position), old(Debt(stack, overflow)), position, Debt(stack, overflow), failure)
      ensures old(Tracked()) ==> Stepped(failure)
    {
      hide StackValid, Debt, Completes, ValueThen, String, Tracks, Begins, May;
      ghost var v := Look();
      var top := |stack| - 1;
      ghost var below := Debt(stack[..top], []);
      StackShape(stack, overflow, limits.maxDepth, collect);
      FrameReplaced(stack, stack[top], limits.maxDepth, collect);
      var frame := stack[top];
      var (role, scope, deferred) := ValueRole(mode, frame);
      var start := position;
      ghost var tracked := AtDue(Setup(), collect, tree, trail, v, role, scope, deferred);
      ValueInObject(raw, start, below);
      ghost var u;
      var value;
      value, u := TakeValue(ObjectCommaOrEnd, role, scope, deferred, v);
      if value.Err? {
        if tracked {
          BeginsAndStops(Setup(), collect, tree, trail, v, u, Look(), role, scope, deferred, value.failure);
        }
        return Some(value.failure);
      }
      failure := NoteValue(frame, role, value.value, start, v, u, scope, deferred);
    }

    // Charges an element of the array on top to the document.
    method ChargeElement(ghost v: View) returns (failure: Option<Failure>)
      requires Valid() && stack != [] && overflow == [] && v == Look() && TopState(v) != ObjectValue
      modifies this`totalItems, this`envelopeItems, this`paramsItems, this`envelopeFirst, this`paramsFirst,
               this`containerItemsExhausted, this`envelopeError, this`paramsError, this`deferredError
      ensures Valid()
      ensures failure.Some? ==> !collect && !Malformed(raw, failure.value)
      ensures failure.None? ==> Charged(v)
      ensures
        var frame := v.stack[|v.stack| - 1];
        failure.Some? && AtDue(Setup(), collect, tree, trail, v, Generic, frame.scope, frame.deferred) ==>
          May(Setup(), collect, tree, failure.value)
    {
      hide StackValid, Debt, Tracks, May, ItemCharged;
      var frame := stack[|stack| - 1];
      StackShape(stack, overflow, limits.maxDepth, collect);
      failure := ChargeItem(position, frame.scope, frame.deferred);
      if failure.Some? && AtDue(Setup(), collect, tree, trail, v, Generic, frame.scope, frame.deferred) {
        ElementStops(Setup(), collect, tree, trail, v, Generic, frame.scope, frame.deferred, failure.value);
      }
    }

    // Reads an element that was charged; `v` is the view before that.
    method TakeElement(ghost v: View) returns (failure: Option<Failure>)
      requires Valid() && stack != [] && overflow == [] && stack[|stack| - 1].kind == ArrayKind
      modifies this
      ensures Valid()
      ensures ReadsValue(raw, collect, old(position), old(Debt(stack[..|stack| - 1], [])) + [ArrayCommaOrEnd], position,
                         Debt(stack, overflow), failure)
      ensures v.stack != [] && v.position == old(position) && old(Charged(v)) && Blocked(raw, v.position)
                && Tracks(Setup(), collect, tree, old(trail), v) && v.stack[|v.stack| - 1].kind == ArrayKind
                && ValueState(raw, v.stack[|v.stack| - 1].state, v.position) ==>
              Stepped(failure)
    {
      hide StackValid, Debt, Completes, ValueThen, String, Tracks, Begins, May, ValueNext, AtDue, NamesMethod;
      hide ItemCharged;
      ghost var tracked := v.stack != [] && v.position == position && Charged(v) && Blocked(raw, v.position)
        && Tracks(Setup(), collect, tree, trail, v) && v.stack[|v.stack| - 1].kind == ArrayKind
        && ValueState(raw, v.stack[|v.stack| - 1].state, v.position);
      StackShape(stack, overflow, limits.maxDepth, collect);
      var frame := stack[|stack| - 1];
      if tracked {
        DueInArray(Setup(), collect, tree, trail, v);
      }
      ghost var u;
      var value;
      value, u := TakeValue(ArrayCommaOrEnd, Generic, frame.scope, frame.deferred, v);
      if tracked {
        if value.Err? {
          BeginsAndStops(Setup(), collect, tree, trail, v, u, Look(), Generic, frame.scope, frame.deferred,
                         value.failure);
        } else {
          ElementEnds(Setup(), collect, tree, trail, v, u, Look(), frame.scope, frame.deferred, value.value);
          trail := ValueNext(Setup(), trail);
        }
      }
      return if value.Err? then Some(value.failure) else None;
    }

    method ScanArrayValue() returns (failure: Option<Failure>)
      requires Valid() && stack != [] && overflow == [] && Blocked(raw, position)
      requires stack[|stack| - 1].state == ArrayValue || stack[|stack| - 1].state == ArrayFirstValueOrEnd
      requires stack[|stack| - 1].state == ArrayFirstValueOrEnd ==> !(position < |raw| && raw[position] == 0x5D)
      modifies this
      ensures Valid()
      ensures Moves(raw, collect, old(position), old(Debt(stack, overflow)), position, Debt(stack, overflow), failure)
      ensures old(Tracked()) ==> Stepped(failure)
    {
      hide StackValid, Debt, Completes, ValueThen, Tracks, May, Charged, AtDue, NamesMethod;
      ghost var v := Look();
      var top := |stack| - 1;
      ghost var below := Debt(stack[..top], []);
      StackShape(stack, overflow, limits.maxDepth, collect);
      FrameReplaced(stack, stack[top], limits.maxDepth, collect);
      if stack[top].state == ArrayFirstValueOrEnd {
        OpenFirst(raw, position, below, ArrayFirstValueOrEnd);
      }
      ValueInArray(raw, position, below);
      if old(Tracked()) {
        DueInArray(Setup(), collect, tree, trail, v);
      }
      failure := ChargeElement(v);
      if failure.None? {
        failure := TakeElement(v);
      }
    }

    // On to the next token.
    method NextToken()
      requires Valid() && stack != []
      modifies this`position
      ensures Valid() && old(position) <= position && Blocked(raw, position)
      ensures Completes(raw, old(position), Debt(stack, overflow)) <==> Completes(raw, position, Debt(stack, overflow))
      ensures old(Tracked()) ==> Tracked()
    {
      hide StackValid, Debt, Completes, Tracks;
      ghost var v := Look();
      SkipWhitespace();
      SkipSpace(raw, old(position), position, Debt(stack, overflow));
      if old(Tracked()) {
        SpaceTracks(Setup(), collect, tree, trail, v, position);
      }
    }

    // After a value: a comma, or the closing bracket.
    method StepComma(ghost below: seq<State>) returns (failure: Option<Failure>)
      requires Valid() && stack != [] && overflow == [] && Blocked(raw, position)
      requires stack[|stack| - 1].state == ObjectCommaOrEnd || stack[|stack| - 1].state == ArrayCommaOrEnd
      requires below == Debt(stack[..|stack| - 1], [])
      modifies this`position, this`stack, this`arguments, this`trail
      ensures Valid()
      ensures Moves(raw, collect, old(position), below + [old(stack[|stack| - 1].state)], position,
                    Debt(stack, overflow), failure)
      ensures old(Tracked()) ==> Stepped(failure)
    {
      hide StackValid, Debt, Completes, Tracks, May, ErrorsValid;
      ghost var v := Look();
      StackShape(stack, overflow, limits.maxDepth, collect);
      var state := stack[|stack| - 1].state;
      AfterValueStep(raw, position, below, state);
      var comma := Take(0x2C);
      if comma {
        GoOn(if state == ObjectCommaOrEnd then ObjectKey else ArrayValue, v);
        return None;
      }
      var closed := Take(if state == ObjectCommaOrEnd then 0x7D else 0x5D);
      if closed {
        Finish(v);
        return None;
      }
      failure := Some(InvalidAt(raw, position));
      if old(Tracked()) {
        SeparatorStops(Setup(), collect, tree, trail, v, failure.value);
      }
    }

    // After a key: a colon.
    method StepColon(ghost below: seq<State>) returns (failure: Option<Failure>)
      requires Valid() && stack != [] && overflow == [] && Blocked(raw, position)
      requires stack[|stack| - 1].state == ObjectColon
      requires below == Debt(stack[..|stack| - 1], [])
      modifies this`position, this`stack, this`trail
      ensures Valid()
      ensures Moves(raw, collect, old(position), below + [ObjectColon], position, Debt(stack, overflow), failure)
      ensures old(Tracked()) ==> Stepped(failure)
    {
      hide StackValid, Debt, Completes, Tracks, May;
      ghost var v := Look();
      StackShape(stack, overflow, limits.maxDepth, collect);
      ColonStep(raw, position, below);
      var colon := Take(0x3A);
      if colon {
        GoOn(ObjectValue, v);
        return None;
      }
      failure := Some(InvalidAt(raw, position));
      if old(Tracked()) {
        SeparatorStops(Setup(), collect, tree, trail, v, failure.value);
      }
    }

    // A container that may still be empty: the closing bracket, if it comes at once.
    method StepFirst(ghost below: seq<State>) returns (closed: bool)
      requires Valid() && stack != [] && overflow == [] && Blocked(raw, position)
      requires stack[|stack| - 1].state == ObjectFirstKeyOrEnd || stack[|stack| - 1].state == ArrayFirstValueOrEnd
      requires below == Debt(stack[..|stack| - 1], [])
      modifies this`position, this`stack, this`arguments, this`trail
      ensures Valid()
      ensures closed ==>
        Moves(raw, collect, old(position), below + [old(stack[|stack| - 1].state)], position, Debt(stack, overflow),
              None)
        && (old(Tracked()) ==> Tracked())
      ensures !closed ==>
        position == old(position) && stack == old(stack) && arguments == old(arguments) && trail == old(trail)
        && !(position < |raw| && raw[position] == Closing(stack[|stack| - 1].state))
    {
      hide StackValid, Debt, Completes, Tracks;
      ghost var v := Look();
      var state := stack[|stack| - 1].state;
      closed := Take(if state == ObjectFirstKeyOrEnd then 0x7D else 0x5D);
      if closed {
        CloseFirst(raw, v.position, below, state);
        Finish(v);
      }
    }

    method StepObject() returns (failure: Option<Failure>)
      requires Valid() && stack != [] && overflow == [] && stack[|stack| - 1].kind == ObjectKind
      modifies this
      ensures Valid()
      ensures Moves(raw, collect, old(position), old(Debt(stack, overflow)), position, Debt(stack, overflow), failure)
      ensures old(Tracked()) ==> Stepped(failure)
    {
      hide StackValid, Debt, Completes, Tracks, May, Look, Tracked;
      var top := |stack| - 1;
      ghost var below := Debt(stack[..top], []);
      StackShape(stack, overflow, limits.maxDepth, collect);
      FrameReplaced(stack, stack[top], limits.maxDepth, collect);
      var state := stack[top].state;
      NextToken();
      if state == ObjectFirstKeyOrEnd {
        var closed := StepFirst(below);
        if closed {
          return None;
        }
        failure := ScanObjectKey();
      } else if state == ObjectKey {
        failure := ScanObjectKey();
      } else if state == ObjectColon {
        failure := StepColon(below);
      } else if state == ObjectValue {
        failure := ScanObjectValue();
      } else {
        failure := StepComma(below);
      }
    }

    method StepArray() returns (failure: Option<Failure>)
      requires Valid() && stack != [] && overflow == [] && stack[|stack| - 1].kind == ArrayKind
      modifies this
      ensures Valid()
      ensures Moves(raw, collect, old(position), old(Debt(stack, overflow)), position, Debt(stack, overflow), failure)
      ensures old(Tracked()) ==> Stepped(failure)
    {
      hide StackValid, Debt, Completes, Tracks, May, Look, Tracked;
      var top := |stack| - 1;
      ghost var below := Debt(stack[..top], []);
      StackShape(stack, overflow, limits.maxDepth, collect);
      FrameReplaced(stack, stack[top], limits.maxDepth, collect);
      var state := stack[top].state;
      NextToken();
      if state == ArrayFirstValueOrEnd {
        var closed := StepFirst(below);
        if closed {
          return None;
        }
        failure := ScanArrayValue();
      } else if state == ArrayValue {
        failure := ScanArrayValue();
      } else {
        failure := StepComma(below);
      }
    }

    // ---- Beyond the depth limit ----

    method SetOverflow(state: State)
      requires Valid() && overflow != []
      modifies this`overflow
      ensures Valid() && overflow == old(overflow[|overflow| - 1 := state])
      ensures Debt(stack, overflow) == Debt(stack, old(overflow[..|overflow| - 1])) + [state]
    {
      hide StackValid, Debt;
      OverflowTop(stack, overflow, state, limits.maxDepth, collect);
      overflow := overflow[|overflow| - 1 := state];
    }

    method CloseOverflow()
      requires Valid() && overflow != []
      modifies this`overflow
      ensures Valid() && overflow == old(overflow[..|overflow| - 1])
    {
      hide StackValid, Debt;
      OverflowTop(stack, overflow, overflow[|overflow| - 1], limits.maxDepth, collect);
      overflow := overflow[..|overflow| - 1];
    }

    // The same as for a frame: a separator was taken, or a closing bracket.
    method GoOnCompact(next: State, ghost v: View)
      requires Valid() && overflow != []
      modifies this`overflow, this`trail
      ensures Valid()
      ensures Debt(stack, overflow) == Debt(stack, old(overflow[..|overflow| - 1])) + [next]
      ensures old(Separated(Setup(), collect, tree, trail, v, Look(), next)) ==> Tracked()
    {
      hide StackValid, Debt, Tracks;
      ghost var separated := Separated(Setup(), collect, tree, trail, v, Look(), next);
      SetOverflow(next);
      if separated {
        SeparatorTracks(Setup(), collect, tree, trail, v, Look());
        trail := Beyond(trail, next);
      }
    }

    method FinishCompact(ghost v: View)
      requires Valid() && overflow != []
      modifies this`overflow, this`trail
      ensures Valid() && overflow == old(overflow[..|overflow| - 1])
      ensures old(Bracketed(Setup(), collect, tree, trail, v, Look())) ==> Tracked()
    {
      hide StackValid, Debt, Tracks;
      ghost var bracketed := Bracketed(Setup(), collect, tree, trail, v, Look());
      CloseOverflow();
      if bracketed {
        CloseTracks(Setup(), collect, tree, trail, v, Look());
        trail := Under(trail);
      }
    }

    method ScanOverflowKey() returns (failure: Option<Failure>)
      requires Valid() && overflow != [] && Blocked(raw, position)
      requires overflow[|overflow| - 1] == ObjectKey || overflow[|overflow| - 1] == ObjectFirstKeyOrEnd
      requires overflow[|overflow| - 1] == ObjectFirstKeyOrEnd ==> !(position < |raw| && raw[position] == 0x7D)
      modifies this`position, this`overflow, this`trail
      ensures Valid()
      ensures Moves(raw, collect, old(position), old(Debt(stack, overflow)), position, Debt(stack, overflow), failure)
      ensures old(Tracked()) ==> Stepped(failure)
    {
      hide StackValid, Debt, Completes, StringResult, String, Tracks, May, KeyNext;
      ghost var v := Look();
      var top := |overflow| - 1;
      ghost var below := Debt(stack, overflow[..top]);
      StackShape(stack, overflow, limits.maxDepth, collect);
      OverflowTop(stack, overflow, ObjectColon, limits.maxDepth, collect);
      if overflow[top] == ObjectFirstKeyOrEnd {
        OpenFirst(raw, position, below, ObjectFirstKeyOrEnd);
      }
      StringResultMeets(raw, position, NO_LIMIT, false);
      var text := ScanString(raw, position, NO_LIMIT, false, false);
      if text.Err? {
        NoKey(raw, position, below);
        if old(Tracked()) {
          KeyUnquoted(Setup(), collect, tree, trail, v, text.failure);
        }
        return Some(text.failure);
      }
      KeyAdvances(raw, position, text.value.end);
      KeyStep(raw, position, text.value.end, below);
      position := text.value.end;
      SetOverflow(ObjectColon);
      if old(Tracked()) {
        KeyIsPassed(Setup(), collect, tree, trail, v, Look(), text.value.end);
        trail := KeyNext(trail);
      }
      return None;
    }

    method ScanOverflowValue(after: State) returns (failure: Option<Failure>)
      requires Valid() && overflow != [] && Blocked(raw, position)
      requires after == ObjectCommaOrEnd || after == ArrayCommaOrEnd
      modifies this
      ensures Valid()
      ensures ReadsValue(raw, collect, old(position), old(Debt(stack, overflow[..|overflow| - 1])) + [after],
                         position, Debt(stack, overflow), failure)
      ensures old(Tracked()) && after == old(After(overflow[|overflow| - 1]))
                && old(ValueState(raw, overflow[|overflow| - 1], position)) ==>
              Stepped(failure)
    {
      hide StackValid, Debt, Completes, ValueThen, Tracks, May, Due, ValueScanned, DueValue, ValueNext;
      hide IsText, IsQuantity;
      ghost var v := Look();
      StackShape(stack, overflow, limits.maxDepth, collect);
      SetOverflow(after);
      ghost var u := Look();
      var frame := stack[|stack| - 1];
      var value := ScanValue(Generic, frame.scope, frame.deferred, DueValue(trail));
      if old(Tracked()) && after == old(After(overflow[|overflow| - 1]))
         && old(ValueState(raw, overflow[|overflow| - 1], position)) {
        BeginsCompact(Setup(), collect, tree, trail, v, u, Look(), after, value);
        if value.Ok? {
          trail := ValueNext(Setup(), trail);
        }
      }
      return if value.Err? then Some(value.failure) else None;
    }

    method StepOverflow() returns (failure: Option<Failure>)
      requires Valid() && overflow != []
      modifies this
      ensures Valid()
      ensures Moves(raw, collect, old(position), old(Debt(stack, overflow)), position, Debt(stack, overflow), failure)
      ensures old(Tracked()) ==> Stepped(failure)
    {
      hide StackValid, Debt, Completes, ValueThen, Tracks, May, Look, Tracked;
      var top := |overflow| - 1;
      var state := overflow[top];
      ghost var below := Debt(stack, overflow[..top]);
      StackShape(stack, overflow, limits.maxDepth, collect);
      OverflowTop(stack, overflow, state, limits.maxDepth, collect);
      NextToken();
      if state == ObjectFirstKeyOrEnd || state == ArrayFirstValueOrEnd {
        var closed := StepOverflowFirst(below);
        if closed {
          return None;
        }
      }
      if state == ObjectFirstKeyOrEnd || state == ObjectKey {
        failure := ScanOverflowKey();
      } else if state == ObjectColon {
        failure := StepOverflowColon(below);
      } else if state == ObjectValue {
        ValueInObject(raw, position, below);
        failure := ScanOverflowValue(ObjectCommaOrEnd);
      } else if state == ArrayFirstValueOrEnd || state == ArrayValue {
        if state == ArrayFirstValueOrEnd {
          OpenFirst(raw, position, below, state);
        }
        ValueInArray(raw, position, below);
        failure := ScanOverflowValue(ArrayCommaOrEnd);
      } else {
        failure := StepOverflowComma(below);
      }
    }

    method StepOverflowFirst(ghost below: seq<State>) returns (closed: bool)
      requires Valid() && overflow != [] && Blocked(raw, position)
      requires overflow[|overflow| - 1] == ObjectFirstKeyOrEnd || overflow[|overflow| - 1] == ArrayFirstValueOrEnd
      requires below == Debt(stack, overflow[..|overflow| - 1])
      modifies this`position, this`overflow, this`trail
      ensures Valid()
      ensures closed ==>
        Moves(raw, collect, old(position), below + [old(overflow[|overflow| - 1])], position, Debt(stack, overflow),
              None)
        && (old(Tracked()) ==> Tracked())
      ensures !closed ==>
        position == old(position) && overflow == old(overflow) && trail == old(trail)
        && !(position < |raw| && raw[position] == Closing(overflow[|overflow| - 1]))
    {
      hide StackValid, Debt, Completes, Tracks;
      ghost var v := Look();
      StackShape(stack, overflow, limits.maxDepth, collect);
      var state := overflow[|overflow| - 1];
      closed := Take(if state == ObjectFirstKeyOrEnd then 0x7D else 0x5D);
      if closed {
        CloseFirst(raw, v.position, below, state);
        FinishCompact(v);
      }
    }

    method StepOverflowColon(ghost below: seq<State>) returns (failure: Option<Failure>)
      requires Valid() && overflow != [] && Blocked(raw, position)
      requires overflow[|overflow| - 1] == ObjectColon
      requires below == Debt(stack, overflow[..|overflow| - 1])
      modifies this`position, this`overflow, this`trail
      ensures Valid()
      ensures Moves(raw, collect, old(position), below + [ObjectColon], position, Debt(stack, overflow), failure)
      ensures old(Tracked()) ==> Stepped(failure)
    {
      hide StackValid, Debt, Completes, Tracks, May;
      ghost var v := Look();
      StackShape(stack, overflow, limits.maxDepth, collect);
      ColonStep(raw, position, below);
      var colon := Take(0x3A);
      if colon {
        GoOnCompact(ObjectValue, v);
        return None;
      }
      failure := Some(InvalidAt(raw, position));
      if old(Tracked()) {
        SeparatorStops(Setup(), collect, tree, trail, v, failure.value);
      }
    }

    method StepOverflowComma(ghost below: seq<State>) returns (failure: Option<Failure>)
      requires Valid() && overflow != [] && Blocked(raw, position)
      requires overflow[|overflow| - 1] == ObjectCommaOrEnd || overflow[|overflow| - 1] == ArrayCommaOrEnd
      requires below == Debt(stack, overflow[..|overflow| - 1])
      modifies this`position, this`overflow, this`trail
      ensures Valid()
      ensures Moves(raw, collect, old(position), below + [old(overflow[|overflow| - 1])], position,
                    Debt(stack, overflow), failure)
      ensures old(Tracked()) ==> Stepped(failure)
    {
      hide StackValid, Debt, Completes, Tracks, May;
      ghost var v := Look();
      StackShape(stack, overflow, limits.maxDepth, collect);
      var state := overflow[|overflow| - 1];
      AfterValueStep(raw, position, below, state);
      var comma := Take(0x2C);
      if comma {
        GoOnCompact(if state == ObjectCommaOrEnd then ObjectKey else ArrayValue, v);
        return None;
      }
      var closed := Take(if state == ObjectCommaOrEnd then 0x7D else 0x5D);
      if closed {
        FinishCompact(v);
        return None;
      }
      failure := Some(InvalidAt(raw, position));
      if old(Tracked()) {
        SeparatorStops(Setup(), collect, tree, trail, v, failure.value);
      }
    }

    method StepContainer() returns (failure: Option<Failure>)
      requires Valid() && stack != []
      modifies this
      ensures Valid()
      ensures Moves(raw, collect, old(position), old(Debt(stack, overflow)), position, Debt(stack, overflow), failure)
      ensures old(Tracked()) ==> Stepped(failure)
    {
      hide StackValid, Debt, Moves, Tracks, May;
      StackShape(stack, overflow, limits.maxDepth, collect);
      if overflow != [] {
        failure := StepOverflow();
      } else if stack[|stack| - 1].kind == ObjectKind {
        failure := StepObject();
      } else {
        failure := StepArray();
      }
    }

    // ---- The document ----

    method FinishContainerItemLimit()
      requires Valid()
      modifies this`envelopeError, this`paramsError, this`deferredError
      ensures Valid()
      ensures !collect || !containerItemsExhausted ==> unchanged(this)
      ensures collect && containerItemsExhausted ==>
        if envelopeItems > limits.maxContainerItems then envelopeError.Some? && paramsError == old(paramsError)
        else paramsError.Some? && envelopeError == old(envelopeError)
      ensures old(envelopeError).Some? ==> envelopeError == old(envelopeError)
      ensures old(paramsError).Some? ==> paramsError == old(paramsError)
      ensures deferredError == old(deferredError)
      ensures old(envelopeError).None? && envelopeError.Some? ==> envelopeError.value.failure.kind == Resource
      ensures old(paramsError).None? && paramsError.Some? ==> paramsError.value.failure.kind == Resource
    {
      hide StackValid;
      if !collect || !containerItemsExhausted {
        return;
      }
      var scope, first := ScopeParams, paramsFirst;
      if envelopeItems > limits.maxContainerItems {
        scope, first := ScopeEnvelope, envelopeFirst;
      }
      var _ := RecordRecoverable(Failure(Resource, if first.Some? then first.value else 0), scope, false);
    }

    predicate ToolCall()
      reads this`methodIsString, this`methodName
    {
      methodIsString && methodName == TOOLS_CALL
    }

    // Raw arguments that are wrong where they stand: not an object although a tool is called,
    // or with an error held back although none is.
    predicate Misplaced()
      reads this`methodIsString, this`methodName, this`arguments, this`deferredError
    {
      mode == ProtocolWithRawArguments && arguments.ArgumentsAt? &&
      if ToolCall() then arguments.kind != ObjectKind else deferredError.Some?
    }

    // What is wrong with raw arguments that are misplaced.
    function MisplacedKind(): ErrorKind
      requires Misplaced()
      reads this`methodIsString, this`methodName, this`arguments, this`deferredError
    {
      if ToolCall() then Mismatch else deferredError.value.failure.kind
    }

    // The raw arguments belong to a tool only when the method is a tool call.
    method FinishProtocolSemantics() returns (failure: Option<ScopedError>)
      requires Valid()
      modifies this`envelopeError, this`paramsError, this`deferredError
      ensures Valid() && deferredError == old(deferredError) && envelopeError == old(envelopeError)
      ensures failure.Some? ==> !collect && !Malformed(raw, failure.value.failure)
      ensures !collect ==> (failure.Some? <==> Misplaced() && (ToolCall() || old(paramsError).None?))
      ensures old(paramsError).Some? || !Misplaced() ==> paramsError == old(paramsError)
      ensures collect && Misplaced() ==> paramsError.Some?
      ensures old(paramsError).None? && paramsError.Some? ==>
        Misplaced() && paramsError.value.failure.kind == MisplacedKind()
      ensures failure.Some? ==> Misplaced() && failure.value.failure.kind == MisplacedKind()
    {
      hide StackValid;
      if mode != ProtocolWithRawArguments || arguments.NoArguments? {
        return None;
      }
      if methodIsString && methodName == TOOLS_CALL {
        if arguments.kind != ObjectKind {
          var mismatch := Failure(Mismatch, arguments.start);
          var recorded := RecordRecoverable(mismatch, ScopeParams, false);
          return if recorded then None else Some(ScopedError(mismatch, ScopeValue));
        }
        return None;
      }
      if deferredError.Some? && paramsError.None? {
        if !collect {
          return deferredError;
        }
        paramsError := Some(ScopedError(deferredError.value.failure, ScopeParams));
      }
      return None;
    }

    // What is left to say once the text is known to be JSON: item limits, raw arguments out of
    // place and a document that is no object. The envelope's error comes before the params'.
    method Conclude(kind: ValueKind, start: nat, end: nat) returns (outcome: Outcome)
      requires Valid()
      modifies this`envelopeError, this`paramsError, this`deferredError
      ensures Valid()
      ensures old(envelopeError).Some? ==> envelopeError == old(envelopeError)
      ensures old(paramsError).Some? ==> paramsError == old(paramsError)
      ensures deferredError == old(deferredError)
      ensures collect ==> outcome.error == if envelopeError.Some? then envelopeError else paramsError
      ensures collect ==> (envelopeError.Some? <==>
        old(envelopeError).Some? || kind != ObjectKind
          || (containerItemsExhausted && envelopeItems > limits.maxContainerItems))
      ensures collect ==> (paramsError.Some? <==>
        old(paramsError).Some? || old(Misplaced())
          || (containerItemsExhausted && envelopeItems <= limits.maxContainerItems))
      ensures !collect ==> (outcome.error.Some? <==> old(Misplaced()) && (ToolCall() || old(paramsError).None?))
      ensures outcome.error.Some? && !collect ==> outcome.kind.None? && !Malformed(raw, outcome.error.value.failure)
      ensures old(envelopeError).None? && envelopeError.Some? ==>
        envelopeError.value.failure.kind ==
          if containerItemsExhausted && envelopeItems > limits.maxContainerItems then Resource else Mismatch
      ensures collect && old(paramsError).None? && paramsError.Some? ==>
        if containerItemsExhausted && envelopeItems <= limits.maxContainerItems then
          paramsError.value.failure.kind == Resource
        else Misplaced() && paramsError.value.failure.kind == MisplacedKind()
      ensures !collect && outcome.error.Some? ==>
        Misplaced() && outcome.error.value.failure.kind == MisplacedKind()
      ensures collect || outcome.error.None? ==>
        outcome == Outcome(Some(kind), start, end, if ToolCall() then arguments else NoArguments, outcome.error)
    {
      hide StackValid, Files, Bounded, Placed, FiledUnder;
      FinishContainerItemLimit();
      var failure := FinishProtocolSemantics();
      if failure.Some? {
        return Outcome(None, 0, 0, NoArguments, failure);
      }
      if collect && kind != ObjectKind {
        var _ := RecordRecoverable(Failure(Mismatch, start), ScopeEnvelope, false);
      }
      var error := if !collect then None else if envelopeError.Some? then envelopeError else paramsError;
      return Outcome(Some(kind), start, end, if ToolCall() then arguments else NoArguments, error);
    }

    // Steps until every container is closed.
    method Drain() returns (failure: Option<Failure>)
      requires Valid()
      modifies this
      ensures Valid()
      ensures old(Tracked()) ==> Stepped(failure)
      ensures
        match failure
        case None =>
          stack == [] && overflow == [] && old(position) <= position
          && (Completes(raw, old(position), old(Debt(stack, overflow))) <==> Completes(raw, position, []))
        case Some(f) =>
          (Malformed(raw, f) ==> !Completes(raw, old(position), old(Debt(stack, overflow))))
          && (collect ==> Malformed(raw, f))
    {
      hide StackValid, Debt, Completes, Tracks, May;
      while stack != []
        invariant Valid() && old(position) <= position
        invariant Completes(raw, old(position), old(Debt(stack, overflow)))
          <==> Completes(raw, position, Debt(stack, overflow))
        invariant old(Tracked()) ==> Tracked()
        decreases |raw| - position
      {
        failure := StepContainer();
        if failure.Some? {
          return;
        }
      }
      StackShape(stack, overflow, limits.maxDepth, collect);
      EmptyDebt();
      return None;
    }

    // Only space may follow the root value.
    method EndDocument(kind: ValueKind, start: nat) returns (outcome: Outcome)
      requires Valid() && stack == [] && overflow == []
      modifies this
      ensures
        if Completes(raw, old(position), []) then
          && Space(raw, old(position), |raw|)
          && Concluded(Setup(), collect, old(Look()), Errs(), kind, start, old(position), outcome)
          && (outcome.error.Some? ==>
                !Malformed(raw, outcome.error.value.failure)
                && (collect ==> ProtocolScope(outcome.error.value.scope)))
        else outcome.error.Some? && outcome == Rejected(outcome.error.value.failure, collect)
    {
      hide StackValid, Completes, Concluded;
      ghost var v := Look();
      var end := position;
      SkipWhitespace();
      SkipSpace(raw, end, position, []);
      NothingOwed(raw, position);
      if position != |raw| {
        return Rejected(InvalidAt(raw, position), collect);
      }
      ghost var misplaced, tool := Misplaced(), ToolCall();
      ghost var exceeded := containerItemsExhausted && envelopeItems > limits.maxContainerItems;
      ghost var rest := containerItemsExhausted && envelopeItems <= limits.maxContainerItems;
      outcome := Conclude(kind, start, end);
      ConcludedSo(Setup(), collect, v, Errs(), kind, start, end, outcome, misplaced, tool, exceeded, rest);
    }
  }

  // A whole document. With errors collected, the outcome is filed under the document exactly when
  // the bytes are not a JSON text, whatever the limits are; every other failure of a JSON text is
  // filed under the envelope or the params. Without collection the first failure is reported.
  // Which failures a JSON text has is told by its syntax tree.
  method ScanDocument(raw: seq<Byte>, limits: Limits, mode: Mode, collect: bool) returns (outcome: Outcome)
    requires Addressable(raw)
    ensures collect ==> ((outcome.error.Some? && outcome.error.value.scope == ScopeDocument) <==> !IsJson(raw))
    ensures collect && outcome.error.Some? && outcome.error.value.scope != ScopeDocument ==>
              ProtocolScope(outcome.error.value.scope) && !Malformed(raw, outcome.error.value.failure)
    ensures !collect && outcome.error.None? ==> IsJson(raw)
    ensures !collect && outcome.error.Some? && Malformed(raw, outcome.error.value.failure) ==> !IsJson(raw)
    ensures outcome.error.None? ==> outcome.kind.Some? && (collect ==> outcome.kind.value == ObjectKind)
    ensures outcome.error.None? ==>
      Space(raw, 0, outcome.start) && Space(raw, outcome.end, |raw|) && outcome.start < outcome.end
    ensures !collect && mode == ValidateAll && IsText(raw, 0, limits.maxStringBytes, |raw|) ==>
              outcome.error.None? && outcome.kind == Some(StringKind)
    ensures !collect && mode == ValidateAll && IsQuantity(raw, 0, limits.maxNumberRawBytes, |raw|) ==>
              outcome.error.None? && outcome.kind == Some(NumberKind)
    ensures forall t: Tree :: Parses(raw, t) ==> Verdict(Setting(raw, limits, mode), collect, t, outcome)
  {
    hide IsJson, Parses, Verdict, IsText, IsQuantity;
    JsonHasTree(raw);
    ghost var tree := Scalar(NullKind, 0, 0);
    if IsJson(raw) {
      tree :| Parses(raw, tree);
    }
    outcome := ScanTree(raw, limits, mode, collect, tree);
    forall t: Tree | Parses(raw, t) ensures Verdict(Setting(raw, limits, mode), collect, t, outcome) {
      assert exists u: Tree :: Parses(raw, u);
      OneTree(raw, t, tree);
    }
    ghost var c := Setting(raw, limits, mode);
    if outcome.error.None? {
      VerdictKind(c, collect, tree, outcome);
    }
    if !collect {
      PlainParses(raw, limits);
      if IsText(raw, 0, limits.maxStringBytes, |raw|) {
        PlainVerdict(c, StringKind, outcome);
      }
      if IsQuantity(raw, 0, limits.maxNumberRawBytes, |raw|) {
        PlainVerdict(c, NumberKind, outcome);
      }
    }
  }

  // The same, told by one tree.
  method ScanTree(raw: seq<Byte>, limits: Limits, mode: Mode, collect: bool, ghost t: Tree) returns (outcome: Outcome)
    requires Addressable(raw)
    ensures collect ==> ((outcome.error.Some? && outcome.error.value.scope == ScopeDocument) <==> !IsJson(raw))
    ensures collect && outcome.error.Some? && outcome.error.value.scope != ScopeDocument ==>
              ProtocolScope(outcome.error.value.scope) && !Malformed(raw, outcome.error.value.failure)
    ensures !collect && outcome.error.None? ==> IsJson(raw)
    ensures !collect && outcome.error.Some? && Malformed(raw, outcome.error.value.failure) ==> !IsJson(raw)
    ensures outcome.error.None? ==>
      Space(raw, 0, outcome.start) && Space(raw, outcome.end, |raw|) && outcome.start < outcome.end
    ensures IsJson(raw) && Parses(raw, t) ==> Verdict(Setting(raw, limits, mode), collect, t, outcome)
  {
    hide IsJson, ValueThen, Completes, StackValid, Debt, IsText, IsQuantity, Parses, Verdict, Due, ValueScanned,
      Tracks, May,
      Deserved;
    ghost var c, json := Setting(raw, limits, mode), IsJson(raw) && Parses(raw, t);
    var scanner := new Scanner(raw, limits, mode, collect, t);
    scanner.SkipWhitespace();
    var start := scanner.position;
    TextIsValue(raw, start);
    EmptyDebt();
    if json {
      RootDue(c, collect, t, start);
    }
    var scope := if collect then ScopeEnvelope else ScopeValue;
    var kind := scanner.ScanValue(Root, scope, false, t);
    if kind.Err? {
      if json {
        RootStops(c, collect, t, scanner.Look(), scope, kind.failure);
        VerdictStops(c, t, kind.failure);
      }
      return Rejected(kind.failure, collect);
    }
    if json {
      RootTracks(c, collect, t, scanner.Look(), scope, kind.value);
      scanner.trail := RootTrail(t);
    }
    var failure := scanner.Drain();
    if failure.Some? {
      if json && !collect {
        MayStops(c, t, failure.value);
      }
      return Rejected(failure.value, collect);
    }
    ghost var v, trail := scanner.Look(), scanner.trail;
    outcome := scanner.EndDocument(kind.value, start);
    if json {
      VerdictEnds(c, collect, t, trail, v, scanner.Errs(), outcome);
    }
  }

  // A text that is one string, or one number, within its limit.
  lemma PlainParses(raw: seq<Byte>, limits: Limits)
    ensures IsText(raw, 0, limits.maxStringBytes, |raw|) ==> Parses(raw, Scalar(StringKind, 0, |raw|))
    ensures IsQuantity(raw, 0, limits.maxNumberRawBytes, |raw|) ==> Parses(raw, Scalar(NumberKind, 0, |raw|))
  {
    hide StringResult, String, Number, NumberReach;
    StringResultMeets(raw, 0, limits.maxStringBytes, true);
    if IsText(raw, 0, limits.maxStringBytes, |raw|) {
      KeyAdvances(raw, 0, |raw|);
    }
    if IsQuantity(raw, 0, limits.maxNumberRawBytes, |raw|) {
      ReachIsNumber(raw, 0);
    }
  }

  lemma PlainVerdict(c: Setting, kind: ValueKind, outcome: Outcome)
    requires Verdict(c, false, Scalar(kind, 0, |c.raw|), outcome)
    requires (kind == StringKind && IsText(c.raw, 0, c.limits.maxStringBytes, |c.raw|)) ||
             (kind == NumberKind && IsQuantity(c.raw, 0, c.limits.maxNumberRawBytes, |c.raw|))
    ensures outcome.error.None? && outcome.kind == Some(kind)
  {
    hide StringResult, String, Number, NumberReach, Text, Whole;
    if kind == StringKind {
      StringResultMeets(c.raw, 0, c.limits.maxStringBytes, true);
      StringMeans(c.raw, 0, |c.raw|, c.limits.maxStringBytes, true);
    }
  }

  lemma VerdictKind(c: Setting, collect: bool, t: Tree, outcome: Outcome)
    requires Verdict(c, collect, t, outcome) && outcome.error.None?
    ensures outcome.kind.Some? && (collect ==> outcome.kind.value == ObjectKind)
  {
    hide Clean, Free, Items, MessageArguments;
  }

  lemma ConcludedSo(c: Setting, collect: bool, v: View, e: Errors, kind: ValueKind, start: nat, end: nat,
                    outcome: Outcome, misplaced: bool, tool: bool, exceeded: bool, rest: bool)
    requires misplaced == OutOfPlace(c, v) && tool == CallsTool(v)
    requires exceeded == (v.tally.exhausted && v.tally.outer > c.limits.maxContainerItems)
    requires rest == (v.tally.exhausted && v.tally.outer <= c.limits.maxContainerItems)
    requires Stays(v.errors.outer, e.outer) && Stays(v.errors.params, e.params)
    requires e.outer.Some? ==> e.outer.value.scope == ScopeEnvelope
    requires e.params.Some? ==> e.params.value.scope == ScopeParams
    requires collect ==>
      && outcome.error == (if e.outer.Some? then e.outer else e.params)
      && (e.outer.Some? <==> v.errors.outer.Some? || kind != ObjectKind || exceeded)
      && (e.params.Some? <==> v.errors.params.Some? || misplaced || rest)
    requires v.errors.outer.None? && e.outer.Some? ==>
      e.outer.value.failure.kind == if exceeded then Resource else Mismatch
    requires collect && v.errors.params.None? && e.params.Some? ==>
      if rest then e.params.value.failure.kind == Resource
      else misplaced && KindIs(v, e.params.value.failure.kind)
    requires !collect ==>
      && (v.errors.params.None? ==> (outcome.error.Some? <==> misplaced))
      && (outcome.error.Some? ==> misplaced && KindIs(v, outcome.error.value.failure.kind))
    requires outcome.error.None? ==>
      outcome == Outcome(Some(kind), start, end, if tool then v.arguments else NoArguments, None)
    ensures Concluded(c, collect, v, e, kind, start, end, outcome)
  {
  }

  function Rejected(failure: Failure, collect: bool): Outcome {
    Outcome(None, 0, 0, NoArguments, Some(ScopedError(failure, if collect then ScopeDocument else ScopeValue)))
  }

  lemma EmptyDebt()
    ensures Debt([], []) == []
  {
  }

  lemma NothingOwed(raw: seq<Byte>, i: nat)
    requires i <= |raw| && Blocked(raw, i)
    ensures Completes(raw, i, []) <==> i == |raw|
  {
  }

  lemma NoStringHere(raw: seq<Byte>, i: nat)
    requires i >= |raw| || raw[i] != 0x22
    ensures forall e: nat :: !String(raw, i, e)
  {
  }

  function KnownKeys(role: Role): (names: seq<seq<Byte>>)
    ensures forall k :: 0 <= k < |names| ==> Ascii(names[k]) && |names[k]| < 0x80
  {
    match role
    case Root => [JSONRPC_KEY, ID_KEY, METHOD_KEY, PARAMS_KEY, RESULT_KEY, ERROR_KEY]
    case Params => [ARGUMENTS_KEY]
    case _ => []
  }

  lemma DigitsReachOn(raw: seq<Byte>, i: nat)
    requires i <= |raw|
    ensures i <= DigitsReach(raw, i).position <= |raw|
  {
  }

  // Every part of a number reaches at least as far as the part before it.
  lemma ReachesOn(raw: seq<Byte>, i: nat)
    requires i < |raw|
    ensures
      var start := if raw[i] == 0x2D then i + 1 else i;
      var whole := IntegerReach(raw, start);
      && start <= whole.position <= |raw|
      && (whole.End? ==>
            var part := FractionReach(raw, whole.position);
            && whole.position <= part.position <= |raw|
            && (part.End? ==> part.position <= ExponentReach(raw, part.position).position))
  {
  }

  lemma NotSpelled(raw: seq<Byte>, start: nat, want: seq<Byte>, offset: nat)
    requires offset < |want| && start + offset < |raw| && raw[start + offset] != want[offset]
    ensures !Spelled(raw, start, start + |want|, want)
  {
    if start + |want| <= |raw| {
      assert raw[start..start + |want|][offset] == raw[start + offset];
    }
  }
}
