// How the scanner keeps in step with the syntax tree: what every check reports of the faults of a
// token, and the tie between the scanner's fields and a trail through the tree.
module JsonTracking {
  import opened Wrappers
  import opened Utf8
  import opened JsonTypes
  import opened JsonGrammar
  import opened JsonPending
  import opened JsonNumber
  import opened JsonString
  import opened JsonFrames
  import opened JsonTree
  import opened JsonFaults
  import opened JsonTrail

  // The first error filed under each layer.
  datatype Errors = Errors(outer: Option<ScopedError>, params: Option<ScopedError>, held: Option<ScopedError>)

  datatype Tally = Tally(total: nat, outer: nat, exhausted: bool)

  datatype Called = Called(isString: bool, name: seq<Byte>)

  // The fields of a scanner.
  datatype View = View(position: nat, stack: seq<Frame>, overflow: seq<State>, errors: Errors, tally: Tally,
                       called: Called, arguments: Arguments)

  function LayerOf(scope: Scope): Layer {
    if scope == ScopeParams then ParamsLayer else OuterLayer
  }

  function TextLayerOf(scope: Scope, deferred: bool): Layer {
    if deferred then HeldLayer else LayerOf(scope)
  }

  // The scopes that occur: only the text of raw arguments is deferred.
  predicate Placed(mode: Mode, collect: bool, scope: Scope, deferred: bool) {
    (deferred ==> mode == ProtocolWithRawArguments && scope == ScopeParams) && (collect ==> ProtocolScope(scope))
  }

  // ---- What a check reports ----

  ghost predicate NoneOf(faults: set<Fault>, layer: Layer) {
    forall kind: ErrorKind :: Fault(layer, kind) !in faults
  }

  predicate Stays(error: Option<ScopedError>, next: Option<ScopedError>) {
    error.Some? ==> next == error
  }

  predicate Keeps(e: Errors, n: Errors) {
    Stays(e.outer, n.outer) && Stays(e.params, n.params) && Stays(e.held, n.held)
  }

  // An error tells one of the faults of its layer, and its absence that there is none.
  ghost predicate Tells(error: Option<ScopedError>, faults: set<Fault>, layer: Layer) {
    if error.Some? then Fault(layer, error.value.failure.kind) in faults else NoneOf(faults, layer)
  }

  // The errors before and after a token with these faults. Once a layer has an error, those
  // below it go unreported.
  ghost predicate Judged(e: Errors, faults: set<Fault>, n: Errors) {
    && Keeps(e, n)
    && (e.outer.None? ==> Tells(n.outer, faults, OuterLayer))
    && (n.outer.None? && e.params.None? ==> Tells(n.params, faults, ParamsLayer))
    && (n.outer.None? && n.params.None? && e.held.None? ==> Tells(n.held, faults, HeldLayer))
  }

  // Without collection a failure ends the scan, unless it is held back.
  predicate Blames(faults: set<Fault>, failure: Failure) {
    Fault(OuterLayer, failure.kind) in faults || Fault(ParamsLayer, failure.kind) in faults
  }

  // What holds of the errors around every check, whatever it finds.
  predicate Bounded(collect: bool, scope: Scope, e: Errors, n: Errors) {
    && Keeps(e, n)
    && (!collect ==> n.outer == e.outer && n.params == e.params)
    && (scope == ScopeParams ==> n.outer == e.outer)
  }

  lemma BoundedSame(collect: bool, scope: Scope, e: Errors)
    ensures Bounded(collect, scope, e, e)
  {
  }

  predicate Files(layer: Layer, failure: Failure, e: Errors, n: Errors) {
    match layer
    case OuterLayer => n == e.(outer := if e.outer.Some? then e.outer else Some(ScopedError(failure, ScopeEnvelope)))
    case ParamsLayer => n == e.(params := if e.params.Some? then e.params else Some(ScopedError(failure, ScopeParams)))
    case HeldLayer =>
      && n == e.(held := n.held) && n.held.Some?
      && (if e.held.Some? then n.held == e.held else n.held.value.failure == failure)
  }

  // The layer has an error already, or one above it.
  predicate Erred(layer: Layer, e: Errors) {
    match layer
    case OuterLayer => e.outer.Some?
    case ParamsLayer => e.outer.Some? || e.params.Some?
    case HeldLayer => e.outer.Some? || e.params.Some? || e.held.Some?
  }

  lemma JudgedFiled(e: Errors, layer: Layer, failure: Failure, n: Errors)
    requires Files(layer, failure, e, n)
    ensures Judged(e, {Fault(layer, failure.kind)}, n)
  {
  }

  lemma JudgedNone(e: Errors)
    ensures Judged(e, {}, e)
  {
  }

  lemma JudgedErred(e: Errors, layer: Layer, faults: set<Fault>)
    requires Erred(layer, e) && forall f :: f in faults ==> f.layer == layer
    ensures Judged(e, faults, e)
  {
  }

  lemma JudgedJoin(e: Errors, first: set<Fault>, m: Errors, second: set<Fault>, n: Errors)
    requires Judged(e, first, m) && Judged(m, second, n)
    ensures Judged(e, first + second, n)
  {
  }

  // Inside params that have an error nothing more is asked.
  lemma JudgedInParams(e: Errors, faults: set<Fault>, n: Errors)
    requires e.params.Some? && Keeps(e, n) && n.outer == e.outer && NoneOf(faults, OuterLayer)
    ensures Judged(e, faults, n)
  {
  }

  // One item more, charged to the document and, when errors are collected, to its layer.
  predicate ItemCharged(c: Setting, collect: bool, scope: Scope, s: Tally, t: Tally) {
    if collect then
      && t.total == Saturated(s.total)
      && t.outer == (if scope == ScopeEnvelope then Saturated(s.outer) else s.outer)
      && (t.exhausted <==> s.exhausted || t.total > c.limits.maxContainerItems)
    else
      t == s.(total := s.total + 1) && s.total < c.limits.maxContainerItems
  }

  // A member charged to its object as well.
  ghost predicate MemberCharged(c: Setting, collect: bool, was: Frame, now: Frame, s: Tally, t: Tally, e: Errors,
                                n: Errors, failure: Option<Failure>) {
    && now == was.(members := now.members, membersExhausted := now.membersExhausted)
    && Bounded(collect, was.scope, e, n) && n.held == e.held
    && match failure
       case Some(f) =>
         !collect && f.kind == Resource && t == s
           && ((!was.membersExhausted && was.members >= c.limits.maxObjectMembers)
               || s.total >= c.limits.maxContainerItems)
       case None =>
         ItemCharged(c, collect, was.scope, s, t)
         && (!was.membersExhausted ==>
               Judged(e, CountFaults(c, was.members, LayerOf(was.scope)), n)
               && (was.members < c.limits.maxObjectMembers ==> now == was.(members := was.members + 1)))
  }

  predicate Recovering(collect: bool, scope: Scope, deferred: bool, e: Errors) {
    (collect && Erred(LayerOf(scope), e)) || (deferred && e.held.Some?)
  }

  // A string that was read against its limit.
  ghost predicate TextScanned(c: Setting, collect: bool, scope: Scope, deferred: bool, start: nat, end: nat,
                              limit: nat, capture: bool, e: Errors, n: Errors, r: Result<Scanned>) {
    && Bounded(collect, scope, e, n)
    && (String(c.raw, start, end) && Placed(c.mode, collect, scope, deferred) ==>
         var faults := TextFaults(c.raw, start, end, limit, LayerOf(scope), TextLayerOf(scope, deferred));
         if r.Err? then !collect && Blames(faults, r.failure)
         else
           && r.value.end == end && Judged(e, faults, n)
           && (capture && faults == {} && !Recovering(collect, scope, deferred, e) ==>
                 r.value.decoded == Text(c.raw, start, end)))
  }

  // A key that was remembered in its object, or found there already.
  ghost predicate KeyNoted(c: Setting, collect: bool, key: seq<Byte>, was: Frame, now: Frame, e: Errors, n: Errors,
                           position: nat, failure: Option<Failure>) {
    var checks := (!was.deferred || c.mode == ProtocolWithRawArguments)
      && !Recovering(collect, was.scope, was.deferred, e);
    var duplicate := Failure(Duplicate, position);
    && Bounded(collect, was.scope, e, n)
    && match failure
       case Some(f) => !collect && checks && key in was.seenKeys && f == duplicate && !was.deferred
       case None =>
         && now == was.(pendingKey := key, state := ObjectColon,
                        seenKeys := if checks then was.seenKeys + {key} else was.seenKeys)
         && if checks && key in was.seenKeys then
              Placed(c.mode, collect, was.scope, was.deferred) ==>
                Files(FiledUnder(was.scope, was.deferred, Duplicate), duplicate, e, n)
            else n == e
  }

  // A value of the message that may be its method.
  ghost predicate MethodNoted(c: Setting, kind: ValueKind, start: nat, e: Errors, n: Errors, was: Called, now: Called,
                              failure: Option<Failure>) {
    && now.isString == (kind == StringKind)
    && (kind != StringKind ==> failure.None? && n == e)
    && (kind == StringKind && e.outer.None? && StringResult(c.raw, start, NO_LIMIT, true).Ok? ==>
          failure.None? && n == e && now.name == StringResult(c.raw, start, NO_LIMIT, true).value.decoded)
  }

  // A number that was read against its limit.
  ghost predicate NumberScanned(c: Setting, collect: bool, scope: Scope, start: nat, end: nat, e: Errors, n: Errors,
                                position: nat, failure: Option<Failure>) {
    && Bounded(collect, scope, e, n)
    && (start <= |c.raw| && NumberReach(c.raw, start) == End(end) ==>
          var faults := When(end - start > c.limits.maxNumberRawBytes, Fault(LayerOf(scope), Resource));
          if failure.Some? then !collect && Blames(faults, failure.value)
          else position == end && Judged(e, faults, n))
  }

  predicate Compact(v: View) {
    v.overflow != [] || (v.stack != [] && v.stack[|v.stack| - 1].compactChildren)
  }

  // A value that was read whole, or opened.
  ghost predicate ValueScanned(c: Setting, collect: bool, t: Tree, role: Role, scope: Scope, deferred: bool, v: View,
                               w: View, r: Result<ValueKind>)
  {
    && Bounded(collect, scope, v.errors, w.errors)
    && w == v.(position := w.position, stack := w.stack, overflow := w.overflow, errors := w.errors)
    && (collect ==> ProtocolScope(scope))
    && if t.Scalar? then
         var faults := ScalarFaults(c, t, LayerOf(scope), TextLayerOf(scope, deferred));
         if r.Err? then !collect && Blames(faults, r.failure)
         else
           && r.value == t.Kind() && w.position == t.end && w.stack == v.stack && w.overflow == v.overflow
           && Judged(v.errors, faults, w.errors)
       else
         var faults := if Compact(v) then {} else DepthFaults(c, |v.stack|, LayerOf(scope));
         if r.Err? then !collect && Blames(faults, r.failure)
         else
           && r.value == t.Kind() && w.position == t.start + 1 && Judged(v.errors, faults, w.errors)
           && if Compact(v) then w.stack == v.stack && w.overflow == v.overflow + [FirstState(r.value)]
              else
                w.overflow == []
                && w.stack == v.stack + [NewFrame(r.value, role, scope, deferred, |v.stack| >= c.limits.maxDepth,
                                                  t.start, collect)]
  }

  // ---- Where errors and the rest of the text stand to each other ----

  ghost predicate Accused(c: Setting, text: Tree, layer: Layer, kind: ErrorKind) {
    !Free(c, text, TopSpot, 0, Fault(layer, kind))
  }

  // The text has a fault of the layer exactly when its rest has.
  ghost predicate Pending(c: Setting, text: Tree, trail: seq<Reading>, layer: Layer)
    requires TrailOk(trail)
  {
    forall kind: ErrorKind ::
      Free(c, text, TopSpot, 0, Fault(layer, kind)) <==> TrailFree(c, trail, Fault(layer, kind))
  }

  ghost predicate Standing(c: Setting, text: Tree, trail: seq<Reading>, e: Errors)
    requires TrailOk(trail)
  {
    && Pending(c, text, trail, OuterLayer)
    && if e.params.Some? then Accused(c, text, ParamsLayer, e.params.value.failure.kind)
       else
         && Pending(c, text, trail, ParamsLayer)
         && if e.held.Some? then Accused(c, text, HeldLayer, e.held.value.failure.kind)
            else Pending(c, text, trail, HeldLayer)
  }

  // What a token settles: the trail before it is free of a fault when the token and the trail
  // after it are.
  ghost predicate Settles(c: Setting, trail: seq<Reading>, faults: set<Fault>, next: seq<Reading>)
    requires TrailOk(trail) && TrailOk(next)
  {
    forall fault: Fault :: TrailFree(c, trail, fault) <==> fault !in faults && TrailFree(c, next, fault)
  }

  lemma StandingMoves(c: Setting, text: Tree, trail: seq<Reading>, faults: set<Fault>, next: seq<Reading>, e: Errors,
                      n: Errors)
    requires TrailOk(trail) && TrailOk(next) && Standing(c, text, trail, e) && e.outer.None?
    requires Settles(c, trail, faults, next) && Judged(e, faults, n)
    ensures
      if n.outer.Some? then Accused(c, text, OuterLayer, n.outer.value.failure.kind)
      else Standing(c, text, next, n)
  {
    hide Free, TrailFree;
  }

  lemma StandingBlames(c: Setting, text: Tree, trail: seq<Reading>, faults: set<Fault>, next: seq<Reading>, e: Errors,
                       failure: Failure)
    requires TrailOk(trail) && TrailOk(next) && Standing(c, text, trail, e) && e.params.None?
    requires Settles(c, trail, faults, next) && Blames(faults, failure)
    ensures Accused(c, text, OuterLayer, failure.kind) || Accused(c, text, ParamsLayer, failure.kind)
  {
    hide Free, TrailFree;
  }

  // ---- A string against its limit ----

  function LimitFor(collect: bool, scope: Scope, limit: nat, e: Errors): nat {
    if collect && Erred(LayerOf(scope), e) then NO_LIMIT else limit
  }

  // The layer under which a failure of a string is filed.
  function FiledUnder(scope: Scope, deferred: bool, kind: ErrorKind): Layer {
    if deferred && (kind == Duplicate || kind == Unicode) then HeldLayer else LayerOf(scope)
  }

  lemma TextShort(raw: seq<Byte>, start: nat, end: nat)
    requires Addressable(raw) && String(raw, start, end)
    ensures |Text(raw, start, end)| <= NO_LIMIT
  {
    hide String, StringResult;
    StringResultMeets(raw, start, NO_LIMIT, false);
    StringMeans(raw, start, end, NO_LIMIT, false);
  }

  // The first reading: strict unless an error is there already.
  lemma FirstScan(c: Setting, collect: bool, scope: Scope, deferred: bool, start: nat, end: nat, limit: nat, e: Errors)
    requires Addressable(c.raw) && String(c.raw, start, end) && Placed(c.mode, collect, scope, deferred)
    ensures
      var r := StringResult(c.raw, start, LimitFor(collect, scope, limit, e), !Recovering(collect, scope, deferred, e));
      var faults := TextFaults(c.raw, start, end, limit, LayerOf(scope), TextLayerOf(scope, deferred));
      if r.Ok? then r.value.end == end && Judged(e, faults, e) && r.value.decoded == Text(c.raw, start, end)
      else
        && !(collect && Erred(LayerOf(scope), e)) && !Malformed(c.raw, r.failure)
        && Fault(FiledUnder(scope, deferred, r.failure.kind), r.failure.kind) in faults
        && (r.failure.kind == Resource || (r.failure.kind == Unicode && !Recovering(collect, scope, deferred, e)))
  {
    hide String, StringResult, Text, Whole;
    TextShort(c.raw, start, end);
    StringMeans(c.raw, start, end, LimitFor(collect, scope, limit, e), !Recovering(collect, scope, deferred, e));
  }

  // A failure of the string was filed: it tells one of its faults.
  ghost predicate FirstFailed(c: Setting, collect: bool, scope: Scope, deferred: bool, start: nat, end: nat, limit: nat,
                              e: Errors, failure: Failure, m: Errors) {
    var faults := TextFaults(c.raw, start, end, limit, LayerOf(scope), TextLayerOf(scope, deferred));
    var layer := FiledUnder(scope, deferred, failure.kind);
    && String(c.raw, start, end) && Placed(c.mode, collect, scope, deferred)
    && Fault(layer, failure.kind) in faults && (failure.kind == Resource || failure.kind == Unicode)
    && Files(layer, failure, e, m) && (collect || layer == HeldLayer)
  }

  // A later reading, when a failure was filed: lenient, and without a limit once the layer has an error.
  lemma NextScan(c: Setting, collect: bool, scope: Scope, deferred: bool, start: nat, end: nat, limit: nat, e: Errors,
                 failure: Failure, m: Errors)
    requires Addressable(c.raw) && FirstFailed(c, collect, scope, deferred, start, end, limit, e, failure, m)
    ensures
      var r := StringResult(c.raw, start, LimitFor(collect, scope, limit, m), false);
      var faults := TextFaults(c.raw, start, end, limit, LayerOf(scope), TextLayerOf(scope, deferred));
      if r.Ok? then r.value.end == end && Judged(e, faults, m)
      else
        && r.failure.kind == Resource && deferred && Fault(ParamsLayer, Resource) in faults
        && forall n: Errors :: collect && Files(ParamsLayer, r.failure, m, n) ==> Judged(e, faults, n)
  {
    hide String, StringResult, Text, Whole;
    TextShort(c.raw, start, end);
    StringMeans(c.raw, start, end, LimitFor(collect, scope, limit, m), false);
  }

  // What the first reading gives is what reading the string is to give, unless its failure was filed.
  lemma FirstDone(c: Setting, collect: bool, scope: Scope, deferred: bool, start: nat, end: nat, limit: nat,
                  capture: bool, strict: bool, e: Errors, n: Errors, r: Result<Scanned>, recorded: bool)
    requires Addressable(c.raw)
    requires Placed(c.mode, collect, scope, deferred) ==> strict == !Recovering(collect, scope, deferred, e)
    requires
      var spec := StringResult(c.raw, start, LimitFor(collect, scope, limit, e), strict);
      r == if spec.Err? || (capture && strict) then spec else Ok(Scanned([], spec.value.end))
    requires Bounded(collect, scope, e, n)
    requires if recorded then r.Err?
             && (collect || (deferred && (r.failure.kind == Duplicate || r.failure.kind == Unicode)))
             else n == e && (r.Err? ==>
               Malformed(c.raw, r.failure) || (!collect && !(c.mode == ProtocolWithRawArguments && deferred
                  && (r.failure.kind == Duplicate || r.failure.kind == Unicode))))
    requires recorded && Placed(c.mode, collect, scope, deferred) ==>
      Files(FiledUnder(scope, deferred, r.failure.kind), r.failure, e, n)
    ensures !recorded ==> TextScanned(c, collect, scope, deferred, start, end, limit, capture, e, n, r)
    ensures recorded && String(c.raw, start, end) && Placed(c.mode, collect, scope, deferred) ==>
      FirstFailed(c, collect, scope, deferred, start, end, limit, e, r.failure, n)
  {
    hide String, StringResult, Text, Whole, Judged, Files;
    if String(c.raw, start, end) && Placed(c.mode, collect, scope, deferred) {
      FirstScan(c, collect, scope, deferred, start, end, limit, e);
    }
  }

  lemma AgainDone(c: Setting, collect: bool, scope: Scope, deferred: bool, start: nat, end: nat, limit: nat,
                  capture: bool, e: Errors, first: Failure, m: Errors, n: Errors, r: Result<Scanned>)
    requires Bounded(collect, scope, e, m) && Bounded(collect, scope, m, n)
    requires String(c.raw, start, end) && Placed(c.mode, collect, scope, deferred) ==>
      && FirstFailed(c, collect, scope, deferred, start, end, limit, e, first, m)
      && var faults := TextFaults(c.raw, start, end, limit, LayerOf(scope), TextLayerOf(scope, deferred));
         if r.Err? then !collect && Blames(faults, r.failure) else r.value.end == end && Judged(e, faults, n)
    ensures Bounded(collect, scope, e, n)
    ensures TextScanned(c, collect, scope, deferred, start, end, limit, capture, e, n, r)
  {
    hide String, TextFaults, Judged, Files;
  }

  // ---- A value ----

  // The value that is due spells its tree, whose first byte decides how it is read.
  ghost predicate Due(c: Setting, collect: bool, t: Tree, scope: Scope, deferred: bool, position: nat) {
    && Addressable(c.raw) && Spells(c.raw, t) && t.start == position && Delimited(c.raw, t.end)
    && Placed(c.mode, collect, scope, deferred)
  }

  lemma DueStarts(c: Setting, collect: bool, t: Tree, scope: Scope, deferred: bool, position: nat)
    requires Due(c, collect, t, scope, deferred, position)
    ensures position < t.end <= |c.raw| && StartsValue(c.raw[position])
    ensures c.raw[position] == 0x7B <==> t.Record?
    ensures c.raw[position] == 0x5B <==> t.List?
    ensures c.raw[position] == 0x22 ==> t.Scalar? && t.scalar == StringKind && String(c.raw, position, t.end)
    ensures c.raw[position] == 0x2D || IsDigit(c.raw[position]) ==>
      t.Scalar? && t.scalar == NumberKind && NumberReach(c.raw, position) == End(t.end)
    ensures StartsWord(c.raw[position]) ==>
      t.Scalar? && t.scalar == WordKind(c.raw[position]) && t.end == position + |WordAt(c.raw[position])|
      && Spelled(c.raw, position, t.end, WordAt(c.raw[position]))
  {
    hide Number, Chars, NumberReach, FirstFieldFrom, FirstItemFrom, Delimited;
    SpellsStart(c.raw, t);
    if t.Kind() == NumberKind {
      NumberIsReach(c.raw, position, t.end);
    }
  }

  // The literal name that a byte begins.
  predicate StartsWord(b: Byte) {
    b == 0x74 || b == 0x66 || b == 0x6E
  }

  function WordAt(b: Byte): (word: seq<Byte>)
    requires StartsWord(b)
    ensures (word == TRUE_WORD || word == FALSE_WORD || word == NULL_WORD) && word[0] == b
  {
    if b == 0x74 then TRUE_WORD else if b == 0x66 then FALSE_WORD else NULL_WORD
  }

  function WordKind(b: Byte): (kind: ValueKind)
    requires StartsWord(b)
    ensures kind == TrueKind || kind == FalseKind || kind == NullKind
  {
    if b == 0x74 then TrueKind else if b == 0x66 then FalseKind else NullKind
  }

  // The view after a scalar, or after a container was opened, is what reading the value is to give.
  lemma TextDone(c: Setting, collect: bool, t: Tree, role: Role, scope: Scope, deferred: bool, v: View, w: View,
                 text: Result<Scanned>, r: Result<ValueKind>)
    requires Due(c, collect, t, scope, deferred, v.position) && t.Scalar? && t.scalar == StringKind
    requires TextScanned(c, collect, scope, deferred, v.position, t.end, c.limits.maxStringBytes, false, v.errors,
                         w.errors, text)
    requires String(c.raw, v.position, t.end)
    requires if text.Err? then r == Err(text.failure) && w == v.(errors := w.errors)
             else r == Ok(StringKind) && w == v.(position := text.value.end, errors := w.errors)
    ensures ValueScanned(c, collect, t, role, scope, deferred, v, w, r)
  {
    hide Spells, String, Delimited, Judged, TextFaults;
  }

  lemma NumberDone(c: Setting, collect: bool, t: Tree, role: Role, scope: Scope, deferred: bool, v: View, w: View,
                   failure: Option<Failure>, r: Result<ValueKind>)
    requires Due(c, collect, t, scope, deferred, v.position) && t.Scalar? && t.scalar == NumberKind
    requires v.position <= |c.raw| && NumberReach(c.raw, v.position) == End(t.end)
    requires NumberScanned(c, collect, scope, v.position, t.end, v.errors, w.errors, w.position, failure)
    requires w == v.(position := w.position, errors := w.errors)
    requires r == if failure.Some? then Err(failure.value) else Ok(NumberKind)
    ensures ValueScanned(c, collect, t, role, scope, deferred, v, w, r)
  {
    hide Spells, Delimited, Judged, NumberReach;
  }

  lemma WordDone(c: Setting, collect: bool, t: Tree, role: Role, scope: Scope, deferred: bool, v: View, w: View,
                 kind: ValueKind)
    requires Due(c, collect, t, scope, deferred, v.position) && t.Scalar? && t.scalar == kind
    requires kind == TrueKind || kind == FalseKind || kind == NullKind
    requires w == v.(position := t.end)
    ensures ValueScanned(c, collect, t, role, scope, deferred, v, w, Ok(kind))
  {
    hide Spells, Delimited;
    JudgedNone(v.errors);
  }

  lemma OpenDone(c: Setting, collect: bool, t: Tree, role: Role, scope: Scope, deferred: bool, v: View, w: View,
                 kind: ValueKind, failure: Option<Failure>)
    requires Due(c, collect, t, scope, deferred, v.position) && !t.Scalar? && kind == t.Kind()
    requires Bounded(collect, scope, v.errors, w.errors)
    requires w == v.(position := w.position, stack := w.stack, overflow := w.overflow, errors := w.errors)
    requires
      match failure
      case Some(f) =>
        !collect && !Compact(v) && |v.stack| >= c.limits.maxDepth && f == Failure(Resource, v.position)
      case None =>
        && w.position == v.position + 1
        && Judged(v.errors, if Compact(v) then {} else DepthFaults(c, |v.stack|, LayerOf(scope)), w.errors)
        && if Compact(v) then w.stack == v.stack && w.overflow == v.overflow + [FirstState(kind)]
           else
             w.overflow == []
             && w.stack == v.stack + [NewFrame(kind, role, scope, deferred, |v.stack| >= c.limits.maxDepth,
                                               v.position, collect)]
    ensures
      ValueScanned(c, collect, t, role, scope, deferred, v, w, if failure.Some? then Err(failure.value) else Ok(kind))
  {
    hide Spells, Delimited, Judged, NewFrame;
  }
}
