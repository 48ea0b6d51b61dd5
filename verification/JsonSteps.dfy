// The steps of the scanner, whatever their outcome: from a scanner that is in step with the tree,
// or whose envelope has an error already, to one of which the same holds.
module JsonSteps {
  import opened Wrappers
  import opened Utf8
  import opened JsonTypes
  import opened JsonGrammar
  import opened JsonPending
  import opened JsonNumber
  import opened JsonString
  import opened JsonFrames
  import opened JsonTree
  import opened JsonFaults
  import opened JsonTrail
  import opened JsonTracking
  import opened JsonLockstep
  import opened JsonMoves

  // In step, with a container open.
  ghost predicate On(c: Setting, collect: bool, text: Tree, trail: seq<Reading>, v: View) {
    Tracks(c, collect, text, trail, v) && v.errors.outer.None? && v.stack != []
  }

  function Under(trail: seq<Reading>): seq<Reading> {
    if trail == [] then [] else trail[..|trail| - 1]
  }

  function Top(trail: seq<Reading>): Reading {
    if trail == [] then Reading(Scalar(NullKind, 0, 0), TopSpot, 0, ObjectKey) else trail[|trail| - 1]
  }

  lemma OnTop(c: Setting, collect: bool, text: Tree, trail: seq<Reading>, v: View)
    requires On(c, collect, text, trail, v)
    ensures trail == Under(trail) + [Top(trail)] && Inside(c, collect, text, Under(trail), Top(trail), v)
  {
    hide Standing, Tallied, FramesAgree, MethodSoFar, ArgumentsSoFar, Follows, Spells, ReadingOk;
    assert |TrailStates(trail)| == |trail|;
    assert ReadingOk(trail[|trail| - 1]);
  }

  // Once the envelope has an error, any change that keeps it will do.
  lemma Lost(c: Setting, collect: bool, text: Tree, trail: seq<Reading>, v: View, next: seq<Reading>, w: View)
    requires Tracks(c, collect, text, trail, v) && v.errors.outer.Some? && Keeps(v.errors, w.errors)
    ensures Tracks(c, collect, text, next, w)
  {
  }

  lemma SpaceTracks(c: Setting, collect: bool, text: Tree, trail: seq<Reading>, v: View, n: nat)
    requires Tracks(c, collect, text, trail, v) && v.stack != []
    requires Space(c.raw, v.position, n) && Blocked(c.raw, n)
    ensures Tracks(c, collect, text, trail, v.(position := n))
  {
    hide InStep;
    if v.errors.outer.None? {
      OnTop(c, collect, text, trail, v);
      SpaceMove(c, collect, text, Under(trail), Top(trail), v, n);
    }
  }

  // ---- A closing bracket, a comma, a colon ----

  function TopState(v: View): State
    requires v.stack != []
  {
    if v.overflow == [] then v.stack[|v.stack| - 1].state else v.overflow[|v.overflow| - 1]
  }

  predicate Brackets(state: State) {
    state == ObjectFirstKeyOrEnd || state == ArrayFirstValueOrEnd || state == ObjectCommaOrEnd
      || state == ArrayCommaOrEnd
  }

  // The bracket that closes a container in this state.
  function Closing(state: State): Byte {
    if state == ObjectFirstKeyOrEnd || state == ObjectCommaOrEnd then 0x7D else 0x5D
  }

  lemma CloseComes(c: Setting, r: Reading, i: nat)
    requires ReadingAt(c.raw, r, i) && Blocked(c.raw, i) && Brackets(r.state)
    requires i < |c.raw| && c.raw[i] == Closing(r.state)
    ensures EndDue(c, r, i)
  {
    hide ReadingAt;
    AtOk(c.raw, r, i);
    if r.state == ObjectFirstKeyOrEnd || r.state == ArrayFirstValueOrEnd {
      FirstReads(c.raw, r, i);
    } else {
      CommaReads(c.raw, r, i);
    }
  }

  lemma CloseTracks(c: Setting, collect: bool, text: Tree, trail: seq<Reading>, v: View, w: View)
    requires Tracks(c, collect, text, trail, v) && v.stack != [] && Blocked(c.raw, v.position)
    requires Brackets(TopState(v)) && v.position < |c.raw| && c.raw[v.position] == Closing(TopState(v))
    requires Popped(v, w)
    requires w == v.(position := v.position + 1, stack := w.stack, overflow := w.overflow, arguments := w.arguments)
    requires w.arguments ==
      if v.overflow == [] && v.stack[|v.stack| - 1].role == RawArguments then
        ArgumentsAt(v.stack[|v.stack| - 1].kind, v.stack[|v.stack| - 1].start, w.position)
      else v.arguments
    ensures Tracks(c, collect, text, Under(trail), w)
  {
    hide InStep, ReadingAt, KeysAgree;
    if v.errors.outer.None? {
      OnTop(c, collect, text, trail, v);
      var below, r := Under(trail), Top(trail);
      TopReads(c, collect, text, below, r, v);
      CloseComes(c, r, v.position);
      CloseMove(c, collect, text, below, r, v, w);
    }
  }

  // The state that a comma or a colon leads on to.
  function Next(state: State): State {
    match state
    case ObjectCommaOrEnd => ObjectKey
    case ArrayCommaOrEnd => ArrayValue
    case _ => ObjectValue
  }

  predicate Separates(state: State) {
    state == ObjectCommaOrEnd || state == ArrayCommaOrEnd || state == ObjectColon
  }

  lemma SeparatorTracks(c: Setting, collect: bool, text: Tree, trail: seq<Reading>, v: View, w: View)
    requires Tracks(c, collect, text, trail, v) && v.stack != [] && Blocked(c.raw, v.position)
    requires Separates(TopState(v)) && v.position < |c.raw|
    requires c.raw[v.position] == if TopState(v) == ObjectColon then 0x3A else 0x2C
    requires TopChanged(v, w, Next(TopState(v)))
    requires w == v.(position := v.position + 1, stack := w.stack, overflow := w.overflow)
    requires v.overflow == [] ==>
      w.stack[|v.stack| - 1] == v.stack[|v.stack| - 1].(state := Next(TopState(v)))
    ensures Tracks(c, collect, text, Under(trail) + [Top(trail).(state := Next(TopState(v)))], w)
  {
    hide InStep, ReadingAt, FrameAgrees;
    if v.errors.outer.None? {
      OnTop(c, collect, text, trail, v);
      var below, r := Under(trail), Top(trail);
      TopReads(c, collect, text, below, r, v);
      AtOk(c.raw, r, v.position);
      if r.state == ObjectColon {
        ColonReads(c.raw, r, v.position);
      } else {
        CommaReads(c.raw, r, v.position);
      }
      StateMove(c, collect, text, below, r, r.(state := Next(r.state)), v, w);
    }
  }

  // In step, one of the bytes that are due comes.
  lemma SeparatorComes(c: Setting, collect: bool, text: Tree, trail: seq<Reading>, v: View)
    requires On(c, collect, text, trail, v) && Blocked(c.raw, v.position) && Separates(TopState(v))
    ensures v.position < |c.raw|
    ensures TopState(v) == ObjectColon ==> c.raw[v.position] == 0x3A
    ensures TopState(v) != ObjectColon ==>
      c.raw[v.position] == 0x2C || c.raw[v.position] == Closing(TopState(v))
  {
    hide InStep, ReadingAt, FrameAgrees;
    OnTop(c, collect, text, trail, v);
    var r := Top(trail);
    TopReads(c, collect, text, Under(trail), r, v);
    AtOk(c.raw, r, v.position);
    if r.state == ObjectColon {
      ColonReads(c.raw, r, v.position);
    } else {
      CommaReads(c.raw, r, v.position);
    }
  }

  // ---- A key ----

  // Where the string of the key that is due ends.
  function KeyEnd(trail: seq<Reading>): nat {
    var r := Top(trail);
    if r.tree.Record? && r.read < |r.tree.fields| then r.tree.fields[r.read].keyEnd else 0
  }

  predicate KeyState(raw: seq<Byte>, state: State, i: nat) {
    state == ObjectKey || (state == ObjectFirstKeyOrEnd && !(i < |raw| && raw[i] == 0x7D))
  }

  lemma KeyThere(c: Setting, collect: bool, text: Tree, trail: seq<Reading>, v: View)
    requires On(c, collect, text, trail, v) && Blocked(c.raw, v.position)
    requires KeyState(c.raw, TopState(v), v.position)
    ensures trail == Under(trail) + [Top(trail)] && Inside(c, collect, text, Under(trail), Top(trail), v)
    ensures KeyDue(c, Top(trail), v.position) && ReadingOk(Top(trail)) && ReadingOk(Keyed(Top(trail)))
    ensures KeyEnd(trail) == Top(trail).tree.fields[Top(trail).read].keyEnd
    ensures String(c.raw, v.position, KeyEnd(trail)) && v.position < |c.raw| && c.raw[v.position] == 0x22
    ensures v.overflow == [] ==> FrameAgrees(c, collect, v.stack[|v.stack| - 1], Top(trail), v.errors)
  {
    hide InStep, ReadingAt, FrameAgrees, Chars;
    OnTop(c, collect, text, trail, v);
    TopReads(c, collect, text, Under(trail), Top(trail), v);
    KeyComes(c, Top(trail), v.position);
  }

  function KeyNext(trail: seq<Reading>): seq<Reading> {
    Under(trail) + [Keyed(Top(trail))]
  }

  lemma KeyTracks(c: Setting, collect: bool, text: Tree, trail: seq<Reading>, v: View, w: View, charged: Frame,
                  m: Errors, l: Errors, capture: bool, read: Result<Scanned>, key: seq<Byte>)
    requires On(c, collect, text, trail, v) && v.overflow == [] && Blocked(c.raw, v.position)
    requires KeyState(c.raw, TopState(v), v.position)
    requires TopChanged(v, w, ObjectColon)
    requires w == v.(position := w.position, stack := w.stack, errors := w.errors, tally := w.tally)
    requires
      var f := v.stack[|v.stack| - 1];
      && MemberCharged(c, collect, f, charged, v.tally, w.tally, v.errors, m, None)
      && capture == ((!f.deferred || c.mode == ProtocolWithRawArguments)
                     && !Recovering(collect, f.scope, f.deferred, m))
      && TextScanned(c, collect, f.scope, f.deferred, v.position, KeyEnd(trail), c.limits.maxKeyBytes, capture, m, l,
                     read)
      && KeyNoted(c, collect, key, charged, w.stack[|v.stack| - 1], l, w.errors, v.position, None)
    requires read.Ok? && w.position == read.value.end && (read.value.decoded != [] ==> key == read.value.decoded)
    requires read.value.decoded == [] && Text(c.raw, v.position, KeyEnd(trail)) == [] ==> key == []
    ensures Tracks(c, collect, text, KeyNext(trail), w)
  {
    hide InStep, Inside, ReadingAt, FrameAgrees, KeyFaults, TextFaults, Judged, ItemCharged, KeyNoted, TextScanned,
      String,
      Text, KeyDue;
    KeyThere(c, collect, text, trail, v);
    var r, f := Top(trail), v.stack[|v.stack| - 1];
    KeyEnds(c, collect, f.scope, f.deferred, v.position, KeyEnd(trail), capture, m, l, read, r, f, v.errors);
    KeyIsKnown(c, collect, r, v.position, f, charged, w.stack[|v.stack| - 1], v.tally, w.tally, v.errors, m, l,
               w.errors,
               capture, read, key);
    KeyMoveHere(c, collect, text, trail, v, w, charged, m);
  }

  lemma KeyEnds(c: Setting, collect: bool, scope: Scope, deferred: bool, start: nat, end: nat, capture: bool, m: Errors,
                l: Errors, read: Result<Scanned>, r: Reading, f: Frame, e: Errors)
    requires ReadingOk(r) && FrameAgrees(c, collect, f, r, e) && scope == f.scope && deferred == f.deferred
    requires String(c.raw, start, end) && read.Ok?
    requires TextScanned(c, collect, scope, deferred, start, end, c.limits.maxKeyBytes, capture, m, l, read)
    ensures read.value.end == end
  {
    hide TextFaults, Judged, String, KeysAgree;
  }

  lemma KeyIsKnown(c: Setting, collect: bool, r: Reading, i: nat, f: Frame, charged: Frame, now: Frame, s: Tally,
                   t: Tally, e: Errors, m: Errors, l: Errors, n: Errors, capture: bool, read: Result<Scanned>,
                   key: seq<Byte>)
    requires KeyDue(c, r, i) && FrameAgrees(c, collect, f, r, e) && e.outer.None? && (!collect ==> e.params.None?)
    requires MemberCharged(c, collect, f, charged, s, t, e, m, None)
    requires capture == ((!f.deferred || c.mode == ProtocolWithRawArguments)
             && !Recovering(collect, f.scope, f.deferred, m))
    requires TextScanned(c, collect, f.scope, f.deferred, i, r.tree.fields[r.read].keyEnd, c.limits.maxKeyBytes,
                         capture,
                         m, l, read)
    requires read.Ok? && (read.value.decoded != [] ==> key == read.value.decoded)
    requires read.value.decoded == [] && Text(c.raw, i, r.tree.fields[r.read].keyEnd) == [] ==> key == []
    requires KeyNoted(c, collect, key, charged, now, l, n, i, None)
    requires ReadingOk(Keyed(r))
    ensures Judged(e, KeyFaults(c, r.tree.fields, r.read, SizeLayer(r.spot), TextLayer(r.spot)), n)
    ensures n.outer.None? ==> FrameAgrees(c, collect, now, Keyed(r), n)
    ensures !collect ==> n.outer.None? && n.params.None?
    ensures now.state == ObjectColon
  {
    hide ReadingAt, FrameAgrees, KeyFaults, TextFaults, Judged, TextScanned, String, Text;
    KeyKnown(c, collect, r, i, f, charged, now, s, t, e, m, l, n, capture, read, key);
  }

  lemma KeyMoveHere(c: Setting, collect: bool, text: Tree, trail: seq<Reading>, v: View, w: View, charged: Frame,
                    m: Errors)
    requires trail == Under(trail) + [Top(trail)] && Inside(c, collect, text, Under(trail), Top(trail), v)
    requires v.overflow == [] && v.stack != [] && w.overflow == []
    requires KeyDue(c, Top(trail), v.position) && ReadingOk(Keyed(Top(trail)))
    requires w.position == Top(trail).tree.fields[Top(trail).read].keyEnd
    requires TopChanged(v, w, ObjectColon)
    requires w == v.(position := w.position, stack := w.stack, errors := w.errors, tally := w.tally)
    requires MemberCharged(c, collect, v.stack[|v.stack| - 1], charged, v.tally, w.tally, v.errors, m, None)
    requires
      var r := Top(trail);
      && Judged(v.errors, KeyFaults(c, r.tree.fields, r.read, SizeLayer(r.spot), TextLayer(r.spot)), w.errors)
      && (w.errors.outer.None? ==> FrameAgrees(c, collect, w.stack[|v.stack| - 1], Keyed(r), w.errors))
    requires !collect ==> w.errors.outer.None? && w.errors.params.None?
    ensures Tracks(c, collect, text, KeyNext(trail), w)
  {
    hide InStep, ReadingAt, FrameAgrees, KeyFaults, Judged, ItemCharged, String;
    KeyMove(c, collect, text, Under(trail), Top(trail), v, w);
  }

  // A member that cannot be charged is one too many, of its object or of the document.
  lemma MemberRefused(c: Setting, collect: bool, text: Tree, trail: seq<Reading>, v: View, charged: Frame, t: Tally,
                      m: Errors, failure: Failure)
    requires On(c, collect, text, trail, v) && v.overflow == [] && Blocked(c.raw, v.position)
    requires KeyState(c.raw, TopState(v), v.position)
    requires MemberCharged(c, collect, v.stack[|v.stack| - 1], charged, v.tally, t, v.errors, m, Some(failure))
    ensures Deserved(c, text, failure)
  {
    hide InStep, ReadingAt, KeyDue, TextFaults, Repeated;
    KeyThere(c, collect, text, trail, v);
    var below, r, f := Under(trail), Top(trail), v.stack[|v.stack| - 1];
    if f.members >= c.limits.maxObjectMembers {
      CountRefuses(c, collect, r, f, v.errors);
      KeyRefuses(c, collect, text, below, r, v, failure);
    } else {
      ItemRefused(c, collect, text, below, r, v);
    }
  }

  lemma CountRefuses(c: Setting, collect: bool, r: Reading, f: Frame, e: Errors)
    requires ReadingOk(r) && r.tree.Record? && r.read < |r.tree.fields| && FrameAgrees(c, collect, f, r, e)
    requires e.params.None? && f.members >= c.limits.maxObjectMembers
    ensures Fault(SizeLayer(r.spot), Resource) in KeyFaults(c, r.tree.fields, r.read, SizeLayer(r.spot),
                                                            TextLayer(r.spot))
  {
    hide Text, Whole, Repeated, KeysRead;
  }

  lemma KeyRefuses(c: Setting, collect: bool, text: Tree, below: seq<Reading>, r: Reading, v: View, failure: Failure)
    requires Inside(c, collect, text, below, r, v) && KeyDue(c, r, v.position) && !collect
    requires
      Blames(KeyFaults(c, r.tree.fields, r.read, SizeLayer(r.spot), TextLayer(r.spot)), failure)
    ensures Deserved(c, text, failure)
  {
    hide InStep, ReadingAt, KeyFaults, Free;
    InsideOk(c, collect, text, below, r, v);
    KeySettlesTop(c, below, r);
    Refused(c, collect, text, below + [r], KeyFaults(c, r.tree.fields, r.read, SizeLayer(r.spot), TextLayer(r.spot)),
            below + [Keyed(r)], v, failure);
  }

  lemma InsideOk(c: Setting, collect: bool, text: Tree, below: seq<Reading>, r: Reading, v: View)
    requires Inside(c, collect, text, below, r, v)
    ensures TrailOk(below + [r]) && Tallied(c, collect, text, below + [r], v.tally, v.errors)
    ensures ReadingOk(r) && (!collect ==> v.errors.params.None?)
  {
    hide Standing, Tallied, FramesAgree, MethodSoFar, ArgumentsSoFar, Follows, Spells, ReadingOk, Shaped;
  }

  lemma ItemRefused(c: Setting, collect: bool, text: Tree, below: seq<Reading>, r: Reading, v: View)
    requires Inside(c, collect, text, below, r, v) && !collect && v.tally.total >= c.limits.maxContainerItems
    requires KeyDue(c, r, v.position) || (ValueDue(c, r, v.position) && r.tree.List?)
    ensures Items(c, text, TopSpot, false) > c.limits.maxContainerItems
  {
    hide Inside, Tallied, ReadingAt, Spells, Delimited, String, TrailItems, ReadingOk;
    InsideOk(c, collect, text, below, r, v);
    DueFits(c, r, v.position);
    if r.tree.List? {
      ElementCounts(c, below, r);
      TallyExceeds(c, text, below + [r], r.spot, TrailItems(c, below + [r], false) - 1, v.tally, v.errors);
    } else {
      KeySettlesTop(c, below, r);
      assert TrailItems(c, below + [r], false) == Own(r.spot, false) + TrailItems(c, below + [Keyed(r)], false);
      TallyExceeds(c, text, below + [r], r.spot, TrailItems(c, below + [Keyed(r)], false), v.tally, v.errors);
    }
  }

  lemma DueFits(c: Setting, r: Reading, i: nat)
    ensures KeyDue(c, r, i) ==> r.tree.Record? && !AwaitsValue(r) && r.read < |r.tree.fields|
    ensures ValueDue(c, r, i) && r.tree.List? ==> ReadingOk(r) && r.state == ArrayValue
  {
    hide ReadingAt, Spells, Delimited, String;
  }

  lemma ElementCounts(c: Setting, below: seq<Reading>, r: Reading)
    requires TrailOk(below + [r]) && ReadingOk(r) && r.state == ArrayValue
    ensures TrailItems(c, below + [r], false) >= 1 && Own(r.spot, false) == 1
  {
    hide TrailItems;
    if Current(Begun(r)).Scalar? {
      ScalarSettlesTop(c, below, r);
      assert TrailItems(c, below + [r], false) == Charge(r, false) + TrailItems(c, below + [Begun(r)], false);
    } else {
      OpenSettlesTop(c, below, r);
      assert TrailItems(c, below + [r], false) == Charge(r, false) + TrailItems(c, Deeper(c, below, r), false);
    }
  }

  // A key that cannot be read has one of its faults.
  lemma KeyTextRefused(c: Setting, collect: bool, text: Tree, trail: seq<Reading>, v: View, capture: bool, m: Errors,
                       l: Errors, read: Result<Scanned>)
    requires On(c, collect, text, trail, v) && v.overflow == [] && Blocked(c.raw, v.position)
    requires KeyState(c.raw, TopState(v), v.position)
    requires
      var f := v.stack[|v.stack| - 1];
      TextScanned(c, collect, f.scope, f.deferred, v.position, KeyEnd(trail), c.limits.maxKeyBytes, capture, m, l, read)
    requires read.Err?
    ensures !collect && Deserved(c, text, read.failure)
  {
    hide InStep, ReadingAt, Text, Whole, Repeated, KeysRead, String, Deserved;
    KeyThere(c, collect, text, trail, v);
    KeyRefuses(c, collect, text, Under(trail), Top(trail), v, read.failure);
  }

  // A key that is found in its object already repeats.
  lemma KeyRepeatRefused(c: Setting, collect: bool, text: Tree, trail: seq<Reading>, v: View, charged: Frame,
                         now: Frame,
                         t: Tally, m: Errors, l: Errors, n: Errors, capture: bool, read: Result<Scanned>,
                         key: seq<Byte>, failure: Failure)
    requires On(c, collect, text, trail, v) && v.overflow == [] && Blocked(c.raw, v.position)
    requires KeyState(c.raw, TopState(v), v.position)
    requires
      var f := v.stack[|v.stack| - 1];
      && MemberCharged(c, collect, f, charged, v.tally, t, v.errors, m, None)
      && capture == ((!f.deferred || c.mode == ProtocolWithRawArguments)
                     && !Recovering(collect, f.scope, f.deferred, m))
      && TextScanned(c, collect, f.scope, f.deferred, v.position, KeyEnd(trail), c.limits.maxKeyBytes, capture, m, l,
                     read)
      && KeyNoted(c, collect, key, charged, now, l, n, v.position, Some(failure))
    requires read.Ok? && (read.value.decoded != [] ==> key == read.value.decoded)
    requires read.value.decoded == [] && Text(c.raw, v.position, KeyEnd(trail)) == [] ==> key == []
    ensures Deserved(c, text, failure)
  {
    hide InStep, ReadingAt, Text, Whole, String, Deserved, Repeated, KeysRead, Free;
    KeyThere(c, collect, text, trail, v);
    var r, f := Top(trail), v.stack[|v.stack| - 1];
    KeysGrow(c.raw, r.tree.fields, r.read);
    CleanToken(collect, f.scope, f.deferred, c.mode, m,
               TextFaults(c.raw, v.position, KeyEnd(trail), c.limits.maxKeyBytes, LayerOf(f.scope),
                          TextLayerOf(f.scope, f.deferred)), l);
    KeyRefuses(c, collect, text, Under(trail), r, v, failure);
  }

  // Beyond the depth limit.
  lemma KeyPassesTracks(c: Setting, collect: bool, text: Tree, trail: seq<Reading>, v: View, w: View)
    requires On(c, collect, text, trail, v) && v.overflow != [] && Blocked(c.raw, v.position)
    requires KeyState(c.raw, TopState(v), v.position)
    requires w == v.(position := KeyEnd(trail), overflow := v.overflow[|v.overflow| - 1 := ObjectColon])
    ensures Tracks(c, collect, text, KeyNext(trail), w)
  {
    hide InStep, ReadingAt, KeyDue;
    KeyThere(c, collect, text, trail, v);
    KeyPasses(c, collect, text, Under(trail), Top(trail), v, w);
  }

  // ---- A value ----

  predicate ValueState(raw: seq<Byte>, state: State, i: nat) {
    state == ObjectValue || state == ArrayValue || (state == ArrayFirstValueOrEnd && !(i < |raw| && raw[i] == 0x5D))
  }

  // The state of a container once its value has been begun.
  function After(state: State): State {
    if state == ObjectValue then ObjectCommaOrEnd else ArrayCommaOrEnd
  }

  // The value that is due, and the trail once it has been begun.
  function DueValue(trail: seq<Reading>): Tree {
    var r := AtValue(Top(trail));
    if ReadingOk(r) && (r.state == ObjectValue || r.state == ArrayValue) then Current(Begun(r))
      else Scalar(NullKind, 0, 0)
  }

  function ValueNext(c: Setting, trail: seq<Reading>): seq<Reading> {
    var r := AtValue(Top(trail));
    if !(ReadingOk(r) && (r.state == ObjectValue || r.state == ArrayValue)) then trail
    else if Current(Begun(r)).Scalar? then Under(trail) + [Begun(r)]
    else Deeper(c, Under(trail), r)
  }

  // The view with an array's first element due like any other.
  function ValueView(v: View): View
    requires v.stack != []
  {
    if TopState(v) != ArrayFirstValueOrEnd then v
    else if v.overflow == [] then
      v.(stack := v.stack[|v.stack| - 1 := v.stack[|v.stack| - 1].(state := ArrayValue)])
    else v.(overflow := v.overflow[|v.overflow| - 1 := ArrayValue])
  }

  lemma ValueThere(c: Setting, collect: bool, text: Tree, trail: seq<Reading>, v: View)
    requires On(c, collect, text, trail, v) && Blocked(c.raw, v.position)
    requires ValueState(c.raw, TopState(v), v.position)
    ensures
      var r := AtValue(Top(trail));
      && ReadingOk(r) && (r.state == ObjectValue || r.state == ArrayValue)
      && Inside(c, collect, text, Under(trail), r, ValueView(v)) && ValueDue(c, r, v.position)
      && (r.tree.Record? <==> TopState(v) == ObjectValue)
      && |v.stack| + |v.overflow| == |Under(trail)| + 1
  {
    hide InStep, Inside, ReadingAt, FrameAgrees, ValueDue, ReadingOk;
    OnTop(c, collect, text, trail, v);
    var below, r := Under(trail), Top(trail);
    TopReads(c, collect, text, below, r, v);
    ValueComes(c, r, v.position);
    var s := AtValue(r);
    DueOk(c, s, v.position);
    if r.state == ArrayFirstValueOrEnd {
      FirstReads(c.raw, r, v.position);
      StateMove(c, collect, text, below, r, s, v, ValueView(v));
    }
  }

  lemma DueOk(c: Setting, r: Reading, i: nat)
    requires ValueDue(c, r, i)
    ensures ReadingOk(r) && (r.state == ObjectValue || r.state == ArrayValue)
    ensures r.tree.Record? <==> r.state == ObjectValue
  {
  }

  // Beyond the depth limit every container is in the scope of params that have an error.
  lemma OverflowScope(c: Setting, collect: bool, text: Tree, trail: seq<Reading>, v: View)
    requires On(c, collect, text, trail, v) && v.overflow != [] && v.stack[|v.stack| - 1].compactChildren
    ensures v.errors.params.Some?
    ensures
      var f := v.stack[|v.stack| - 1];
      f.scope == ScopeParams && Placed(c.mode, collect, f.scope, f.deferred)
  {
    hide Standing, Tallied, MethodSoFar, ArgumentsSoFar, Follows, Spells, KeysAgree;
    assert FrameAgrees(c, collect, v.stack[|v.stack| - 1], trail[|v.stack| - 1], v.errors);
  }

  // How the value that is due is read: its place, and that it is due there.
  ghost predicate Passed(c: Setting, collect: bool, v: View, role: Role, scope: Scope, deferred: bool)
    requires v.stack != []
  {
    var f := v.stack[|v.stack| - 1];
    if v.overflow != [] then f.compactChildren && (role, scope, deferred) == (Generic, f.scope, f.deferred)
    else (role, scope, deferred) == if f.kind == ArrayKind then (Generic, f.scope, f.deferred) else ValueRole(c.mode, f)
  }

  lemma ValuePasses(c: Setting, collect: bool, text: Tree, trail: seq<Reading>, v: View, role: Role, scope: Scope,
                    deferred: bool)
    requires On(c, collect, text, trail, v) && Blocked(c.raw, v.position)
    requires ValueState(c.raw, TopState(v), v.position) && Passed(c, collect, v, role, scope, deferred)
    ensures Due(c, collect, DueValue(trail), scope, deferred, v.position)
    ensures
      var r := AtValue(Top(trail));
      var spot := CurrentSpot(c, Begun(r));
      && LayerOf(scope) == SizeLayer(spot) && Placed(c.mode, collect, scope, deferred)
      && (deferred == InArguments(spot) || (v.errors.params.Some? && scope == ScopeParams))
      && (v.overflow == [] ==>
            var f := ValueView(v).stack[|v.stack| - 1];
            (role, scope, deferred) == PlaceOf(c, f, r) && FrameAgrees(c, collect, f, r, v.errors))
      && (v.overflow == [] && v.errors.params.None? ==> role == RoleOf(spot))
      && (!Answering(r.spot, v.errors) ==> scope == ScopeParams)
  {
    hide InStep, ReadingAt, Spells, Delimited, KeysAgree, TopChanged;
    ValueThere(c, collect, text, trail, v);
    var below, r := Under(trail), AtValue(Top(trail));
    TopReads(c, collect, text, below, r, ValueView(v));
    InStepAddressable(c, collect, text, below + [r], ValueView(v));
    if v.overflow == [] {
      ValuePlace(c, collect, ValueView(v).stack[|below|], r, v.errors);
    } else {
      OverflowScope(c, collect, text, trail, v);
      InnerAnswering(c, r, v.errors);
    }
  }

  lemma InStepAddressable(c: Setting, collect: bool, text: Tree, trail: seq<Reading>, v: View)
    requires InStep(c, collect, text, trail, v)
    ensures Addressable(c.raw)
  {
  }

  // A value that cannot be read has one of its faults.
  lemma ValueRefused(c: Setting, collect: bool, text: Tree, trail: seq<Reading>, v: View, u: View, x: View, role: Role,
                     scope: Scope, deferred: bool, failure: Failure)
    requires On(c, collect, text, trail, v) && Blocked(c.raw, v.position)
    requires ValueState(c.raw, TopState(v), v.position) && Passed(c, collect, v, role, scope, deferred)
    requires |u.stack| == |v.stack| && (v.overflow == [] ==> u.overflow == [])
    requires ValueScanned(c, collect, DueValue(trail), role, scope, deferred, u, x, Err(failure))
    ensures !collect && Deserved(c, text, failure)
  {
    hide InStep, ReadingAt, ScalarFaults, DepthFaults, Deserved, FrameAgrees, ValueDue, Due, CurrentSpot;
    ValueThere(c, collect, text, trail, v);
    ValuePasses(c, collect, text, trail, v, role, scope, deferred);
    var below, r := Under(trail), AtValue(Top(trail));
    InsideOk(c, collect, text, below, r, ValueView(v));
    assert v.overflow == [] by {
      TopReads(c, collect, text, below, r, ValueView(v));
    }
    var spot := CurrentSpot(c, Begun(r));
    if Current(Begun(r)).Scalar? {
      ScalarSettlesTop(c, below, r);
      Refused(c, collect, text, below + [r], ScalarFaults(c, Current(Begun(r)), SizeLayer(spot), TextLayer(spot)),
              below + [Begun(r)], ValueView(v), failure);
    } else {
      OpenSettlesTop(c, below, r);
      Refused(c, collect, text, below + [r], DepthFaults(c, |below| + 1, SizeLayer(spot)), Deeper(c, below, r),
              ValueView(v), failure);
    }
  }

  // The view while a value is read: its container waits for what follows it.
  predicate Waits(c: Setting, collect: bool, v: View, u: View)
    requires v.stack != []
  {
    && TopChanged(v, u, After(TopState(v)))
    && (v.overflow == [] ==> u.stack[|v.stack| - 1] == v.stack[|v.stack| - 1].(state := After(TopState(v))))
    && u == v.(stack := u.stack, overflow := u.overflow, tally := u.tally)
    && if v.overflow == [] && TopState(v) != ObjectValue then
         ItemCharged(c, collect, v.stack[|v.stack| - 1].scope, v.tally, u.tally)
       else u.tally == v.tally
  }

  // The value was the message's method.
  predicate NamesMethod(v: View) {
    v.overflow == [] && v.stack != [] &&
    var f := v.stack[|v.stack| - 1];
    f.kind == ObjectKind && f.role == Root && f.pendingKey == METHOD_KEY
  }

  // What is noted of a value that was read: `x` is the view before, `w` the one after.
  ghost predicate ValueNoted(c: Setting, v: View, x: View, w: View, role: Role, kind: ValueKind) {
    && w == x.(errors := w.errors, called := w.called, arguments := w.arguments)
    && Keeps(x.errors, w.errors)
    && (if NamesMethod(v) then MethodNoted(c, kind, v.position, x.errors, w.errors, x.called, w.called, None)
        else w.errors == x.errors && w.called == x.called)
    && w.arguments == (if role == RawArguments && kind != ObjectKind && kind != ArrayKind then
                         ArgumentsAt(kind, v.position, x.position)
                       else v.arguments)
  }

  lemma WaitsBegun(c: Setting, collect: bool, text: Tree, trail: seq<Reading>, v: View, u: View)
    requires On(c, collect, text, trail, v) && Blocked(c.raw, v.position)
    requires ValueState(c.raw, TopState(v), v.position) && Waits(c, collect, v, u)
    ensures
      var r := AtValue(Top(trail));
      && ReadingOk(r) && (r.state == ObjectValue || r.state == ArrayValue)
      && ValueBegun(ValueView(v), u, r) && ElementCharged(c, collect, r, ValueView(v), u)
  {
    hide InStep, Inside, ReadingAt, ValueDue, ItemCharged;
    ValueThere(c, collect, text, trail, v);
    var below, r := Under(trail), AtValue(Top(trail));
    TopReads(c, collect, text, below, r, ValueView(v));
  }

  // The method is told from the other members as the tree tells it.
  lemma MethodNames(c: Setting, collect: bool, text: Tree, trail: seq<Reading>, v: View)
    requires On(c, collect, text, trail, v) && Blocked(c.raw, v.position)
    requires ValueState(c.raw, TopState(v), v.position)
    ensures
      var r := AtValue(Top(trail));
      && ReadingOk(r) && (r.state == ObjectValue || r.state == ArrayValue)
      && (NamesMethod(v) <==> r.spot == TopSpot && HasKey(c, Begun(r), METHOD_KEY))
      && (NamesMethod(v) ==> SizeLayer(CurrentSpot(c, Begun(r))) == OuterLayer)
  {
    hide InStep, ReadingAt, ValueDue, KeysRead, KeyText;
    ValueThere(c, collect, text, trail, v);
    var below, r := Under(trail), AtValue(Top(trail));
    TopReads(c, collect, text, below, r, ValueView(v));
  }

  // A method that is a string without a surrogate alone decodes to its text.
  lemma MethodDecodes(c: Setting, t: Tree, size: Layer, e: Errors, x: Errors, n: Errors, was: Called, now: Called)
    requires Addressable(c.raw) && Spells(c.raw, t) && size == OuterLayer && x.outer.None?
    requires t.Scalar? ==> Judged(e, ScalarFaults(c, t, size, size), x)
    requires MethodNoted(c, t.Kind(), t.start, x, n, was, now, None)
    ensures MethodIs(c.raw, Some(t), now) && n == x
  {
    hide String, Text, Whole, StringResult;
    if t.Kind() == StringKind {
      TextShort(c.raw, t.start, t.end);
      StringMeans(c.raw, t.start, t.end, NO_LIMIT, true);
      assert Fault(OuterLayer, Unicode) !in ScalarFaults(c, t, size, size);
    }
  }

  // The raw arguments are told from other values as the tree tells them.
  lemma ArgumentsNamed(c: Setting, collect: bool, text: Tree, trail: seq<Reading>, v: View, role: Role, scope: Scope,
                       deferred: bool)
    requires On(c, collect, text, trail, v) && Blocked(c.raw, v.position) && v.errors.params.None?
    requires ValueState(c.raw, TopState(v), v.position) && Passed(c, collect, v, role, scope, deferred)
    ensures
      var r := AtValue(Top(trail));
      && ReadingOk(r) && (r.state == ObjectValue || r.state == ArrayValue)
      && (role == RawArguments <==> r.spot == ParamsTop && HasKey(c, Begun(r), ARGUMENTS_KEY))
  {
    hide InStep, ReadingAt, ValueDue, FrameAgrees, Due, KeyText;
    ValueThere(c, collect, text, trail, v);
    ValuePasses(c, collect, text, trail, v, role, scope, deferred);
    var below, r := Under(trail), AtValue(Top(trail));
    TopReads(c, collect, text, below, r, ValueView(v));
    TopPlaces(c, collect, text, below, r, ValueView(v));
  }

  // What was noted is what the tree has, as long as the envelope has no error.
  lemma NotedHere(c: Setting, collect: bool, text: Tree, trail: seq<Reading>, v: View, x: View, w: View, role: Role,
                  scope: Scope, deferred: bool)
    requires On(c, collect, text, trail, v) && Blocked(c.raw, v.position)
    requires ValueState(c.raw, TopState(v), v.position) && Passed(c, collect, v, role, scope, deferred)
    requires x.called == v.called && Keeps(v.errors, x.errors)
    requires ValueNoted(c, v, x, w, role, DueValue(trail).Kind())
    requires DueValue(trail).Scalar? ==> x.position == DueValue(trail).end
    requires
      var r := AtValue(Top(trail));
      ReadingOk(r) && (r.state == ObjectValue || r.state == ArrayValue) &&
      var spot := CurrentSpot(c, Begun(r));
      DueValue(trail).Scalar? ==>
        Judged(v.errors, ScalarFaults(c, DueValue(trail), SizeLayer(spot), TextLayer(spot)), x.errors)
    ensures Noted(c, AtValue(Top(trail)), ValueView(v), w.(errors := x.errors))
    ensures x.errors.outer.None? ==> w.errors == x.errors
  {
    hide InStep, ReadingAt, FrameAgrees, Due, KeyText, HasKey, NamesMethod, Passed, Judged, Spells, Delimited,
      CurrentSpot, ScalarFaults, MethodIs;
    ValueThere(c, collect, text, trail, v);
    MethodNames(c, collect, text, trail, v);
    var below, r := Under(trail), AtValue(Top(trail));
    var t := Current(Begun(r));
    InStepAddressable(c, collect, text, below + [r], ValueView(v));
    DueScalar(c, r, v.position);
    if NamesMethod(v) && x.errors.outer.None? {
      OuterText(c, Begun(r));
      MethodDecodes(c, t, OuterLayer, v.errors, x.errors, w.errors, x.called, w.called);
    }
    if x.errors.params.None? {
      ArgumentsNamed(c, collect, text, trail, v, role, scope, deferred);
    }
  }

  lemma DueScalar(c: Setting, r: Reading, i: nat)
    requires ValueDue(c, r, i)
    ensures Current(Begun(r)).Scalar? <==>
      Current(Begun(r)).Kind() != ObjectKind && Current(Begun(r)).Kind() != ArrayKind
  {
    hide FirstFieldFrom, FirstItemFrom, ReadingAt, Delimited;
  }

  lemma OuterText(c: Setting, r: Reading)
    requires ReadingOk(r) && r.read > 0
    ensures SizeLayer(CurrentSpot(c, r)) == OuterLayer ==> TextLayer(CurrentSpot(c, r)) == OuterLayer
  {
    hide KeyText;
  }

  lemma WaitsSame(c: Setting, collect: bool, v: View, u: View)
    requires v.stack != [] && Waits(c, collect, v, u)
    ensures u.errors == v.errors && u.position == v.position && u.called == v.called && u.arguments == v.arguments
    ensures |u.stack| == |v.stack| && |u.overflow| == |v.overflow|
  {
  }

  lemma NotedSame(c: Setting, v: View, x: View, w: View, role: Role, kind: ValueKind)
    requires ValueNoted(c, v, x, w, role, kind)
    ensures w == x.(errors := w.errors, called := w.called, arguments := w.arguments)
    ensures Keeps(x.errors, w.errors)
  {
  }

  lemma BegunSame(c: Setting, collect: bool, r: Reading, v: View, u: View, n: View)
    requires ReadingOk(r) && (r.state == ObjectValue || r.state == ArrayValue)
    requires ValueBegun(v, u, r) && ElementCharged(c, collect, r, v, u) && n.tally == u.tally
    ensures ElementCharged(c, collect, r, v, n)
    ensures n.stack == u.stack && n.overflow == u.overflow ==> ValueBegun(v, n, r)
  {
  }

  lemma OpenHere(c: Setting, collect: bool, text: Tree, below: seq<Reading>, r: Reading, v: View, u: View, x: View,
                 n: View, role: Role, scope: Scope, deferred: bool)
    requires Inside(c, collect, text, below, r, v) && ReadingOk(r) && (r.state == ObjectValue || r.state == ArrayValue)
    requires ValueDue(c, r, v.position) && !Current(Begun(r)).Scalar?
    requires ValueBegun(v, u, r) && u.errors == v.errors && |u.stack| + |u.overflow| == |below| + 1
    requires ValueScanned(c, collect, Current(Begun(r)), role, scope, deferred, u, x, Ok(Current(Begun(r)).Kind()))
    requires n == x.(called := n.called, arguments := n.arguments)
    requires LayerOf(scope) == SizeLayer(CurrentSpot(c, Begun(r)))
    requires v.overflow == [] ==> (role, scope, deferred) == PlaceOf(c, v.stack[|v.stack| - 1], r)
    requires !Answering(r.spot, v.errors) ==> scope == ScopeParams
    requires !collect ==> n.errors.outer.None? && n.errors.params.None?
    requires ElementCharged(c, collect, r, v, n) && Noted(c, r, v, n)
    ensures Tracks(c, collect, text, Deeper(c, below, r), n)
  {
    hide InStep, Inside, ReadingAt, FrameAgrees, HasKey, Judged, Spells, Delimited, DepthFaults, CurrentSpot, Noted,
      ValueDue, ElementCharged, ValueBegun, NewFrame, PlaceOf;
    var t, spot := Current(Begun(r)), CurrentSpot(c, Begun(r));
    if Compact(u) {
      CompactUnasked(c, collect, text, below, r, v, u);
      NoneOfDepth(c, |below| + 1, SizeLayer(spot));
      JudgedInParams(v.errors, DepthFaults(c, |below| + 1, SizeLayer(spot)), n.errors);
    }
    OpenMove(c, collect, text, below, r, v, u, n, role, scope, deferred);
  }

  lemma NoneOfDepth(c: Setting, depth: nat, size: Layer)
    ensures size != OuterLayer ==> NoneOf(DepthFaults(c, depth, size), OuterLayer)
  {
  }

  lemma ValueTracks(c: Setting, collect: bool, text: Tree, trail: seq<Reading>, v: View, u: View, x: View, w: View,
                    role: Role, scope: Scope, deferred: bool)
    requires On(c, collect, text, trail, v) && Blocked(c.raw, v.position)
    requires ValueState(c.raw, TopState(v), v.position) && Passed(c, collect, v, role, scope, deferred)
    requires Waits(c, collect, v, u)
    requires ValueScanned(c, collect, DueValue(trail), role, scope, deferred, u, x, Ok(DueValue(trail).Kind()))
    requires ValueNoted(c, v, x, w, role, DueValue(trail).Kind())
    ensures Tracks(c, collect, text, ValueNext(c, trail), w)
  {
    hide InStep, ReadingAt, FrameAgrees, Due, HasKey, Passed, Judged, Spells, Delimited, ScalarFaults, DepthFaults,
      CurrentSpot, Noted, ValueNoted, Waits, ValueDue, ElementCharged, ValueBegun, NewFrame;
    ValueThere(c, collect, text, trail, v);
    ValuePasses(c, collect, text, trail, v, role, scope, deferred);
    WaitsBegun(c, collect, text, trail, v, u);
    WaitsSame(c, collect, v, u);
    NotedSame(c, v, x, w, role, DueValue(trail).Kind());
    var below, r := Under(trail), AtValue(Top(trail));
    var t, spot := Current(Begun(r)), CurrentSpot(c, Begun(r));
    var n := w.(errors := x.errors);
    if t.Scalar? {
      ValueJudged(c, collect, t, scope, deferred, spot, v.errors, x.errors);
    }
    NotedHere(c, collect, text, trail, v, x, w, role, scope, deferred);
    BegunSame(c, collect, r, ValueView(v), u, n);
    if t.Scalar? {
      ScalarMove(c, collect, text, below, r, ValueView(v), n);
    } else {
      OpenHere(c, collect, text, below, r, ValueView(v), u, x, n, role, scope, deferred);
    }
    if x.errors.outer.Some? {
      Lost(c, collect, text, ValueNext(c, trail), n, ValueNext(c, trail), w);
    }
  }

  // ---- From any scanner that is tracked ----

  // Tracked, with a container open and a token at the position.
  ghost predicate At(c: Setting, collect: bool, text: Tree, trail: seq<Reading>, v: View) {
    Tracks(c, collect, text, trail, v) && v.stack != [] && Blocked(c.raw, v.position)
  }

  // A step may fail here: in step it fails only without collection, and deservedly.
  ghost predicate May(c: Setting, collect: bool, text: Tree, failure: Failure) {
    collect || Deserved(c, text, failure)
  }

  ghost predicate AtKey(c: Setting, collect: bool, text: Tree, trail: seq<Reading>, v: View) {
    At(c, collect, text, trail, v) && v.overflow == [] && KeyState(c.raw, TopState(v), v.position)
  }

  lemma MemberStops(c: Setting, collect: bool, text: Tree, trail: seq<Reading>, v: View, charged: Frame, t: Tally,
                    m: Errors, failure: Failure)
    requires AtKey(c, collect, text, trail, v)
    requires MemberCharged(c, collect, v.stack[|v.stack| - 1], charged, v.tally, t, v.errors, m, Some(failure))
    ensures May(c, collect, text, failure)
  {
    hide InStep, Deserved, MemberCharged;
    if v.errors.outer.None? {
      MemberRefused(c, collect, text, trail, v, charged, t, m, failure);
    }
  }

  // Whether the text of a key is kept.
  predicate Captures(c: Setting, collect: bool, f: Frame, e: Errors) {
    (!f.deferred || c.mode == ProtocolWithRawArguments) && !Recovering(collect, f.scope, f.deferred, e)
  }

  // A key that was read in the frame.
  ghost predicate KeyScanned(c: Setting, collect: bool, f: Frame, start: nat, end: nat, m: Errors, l: Errors,
                             read: Result<Scanned>) {
    TextScanned(c, collect, f.scope, f.deferred, start, end, c.limits.maxKeyBytes, Captures(c, collect, f, m), m, l,
                read)
  }

  // A key that was charged and read so far.
  ghost predicate KeyRead(c: Setting, collect: bool, trail: seq<Reading>, v: View, charged: Frame, t: Tally, m: Errors,
                          l: Errors, read: Result<Scanned>)
    requires v.stack != []
  {
    && MemberCharged(c, collect, v.stack[|v.stack| - 1], charged, v.tally, t, v.errors, m, None)
    && KeyScanned(c, collect, charged, v.position, KeyEnd(trail), m, l, read)
  }

  lemma KeyTextStops(c: Setting, collect: bool, text: Tree, trail: seq<Reading>, v: View, charged: Frame, t: Tally,
                     m: Errors, l: Errors, read: Result<Scanned>)
    requires AtKey(c, collect, text, trail, v)
    requires KeyRead(c, collect, trail, v, charged, t, m, l, read) && read.Err?
    ensures May(c, collect, text, read.failure)
  {
    hide InStep, Deserved, Judged, ItemCharged, TextScanned;
    if v.errors.outer.None? {
      KeyTextRefused(c, collect, text, trail, v, Captures(c, collect, charged, m), m, l, read);
    }
  }

  // The key that is noted: what was read, or what the message's own names tell of it.
  predicate KeyIs(c: Setting, start: nat, read: Result<Scanned>, key: seq<Byte>) {
    && read.Ok? && (read.value.decoded != [] ==> key == read.value.decoded)
    && (read.value.decoded == [] && Text(c.raw, start, read.value.end) == [] ==> key == [])
  }

  lemma KeyStops(c: Setting, collect: bool, text: Tree, trail: seq<Reading>, v: View, charged: Frame, now: Frame,
                 t: Tally, m: Errors, l: Errors, n: Errors, read: Result<Scanned>, key: seq<Byte>,
                 failure: Failure)
    requires AtKey(c, collect, text, trail, v)
    requires KeyRead(c, collect, trail, v, charged, t, m, l, read) && KeyIs(c, v.position, read, key)
    requires KeyNoted(c, collect, key, charged, now, l, n, v.position, Some(failure))
    ensures May(c, collect, text, failure)
  {
    hide InStep, Deserved, Judged, ItemCharged, TextScanned, KeyNoted, Text;
    if v.errors.outer.None? {
      KeyThere(c, collect, text, trail, v);
      var f := v.stack[|v.stack| - 1];
      KeyEnds(c, collect, f.scope, f.deferred, v.position, KeyEnd(trail), Captures(c, collect, charged, m), m, l, read,
              Top(trail), f, v.errors);
      KeyRepeatRefused(c, collect, text, trail, v, charged, now, t, m, l, n, Captures(c, collect, charged, m), read,
                       key,
                       failure);
    }
  }

  lemma KeyGoesOn(c: Setting, collect: bool, text: Tree, trail: seq<Reading>, v: View, w: View, charged: Frame,
                  m: Errors, l: Errors, read: Result<Scanned>, key: seq<Byte>)
    requires AtKey(c, collect, text, trail, v)
    requires KeyRead(c, collect, trail, v, charged, w.tally, m, l, read) && KeyIs(c, v.position, read, key)
    requires w == v.(position := read.value.end, stack := w.stack, errors := w.errors, tally := w.tally)
    requires |w.stack| == |v.stack| && w.stack[..|v.stack| - 1] == v.stack[..|v.stack| - 1]
    requires Keeps(l, w.errors)
    requires Placed(c.mode, collect, charged.scope, charged.deferred) ==>
      KeyNoted(c, collect, key, charged, w.stack[|v.stack| - 1], l, w.errors, v.position, None)
    ensures Tracks(c, collect, text, KeyNext(trail), w)
  {
    hide InStep, TextScanned, Text, Judged, ItemCharged, FrameExact;
    if v.errors.outer.None? {
      KeyThere(c, collect, text, trail, v);
      assert w.stack == v.stack[|v.stack| - 1 := w.stack[|v.stack| - 1]];
      var f := v.stack[|v.stack| - 1];
      KeyEnds(c, collect, f.scope, f.deferred, v.position, KeyEnd(trail), Captures(c, collect, charged, m), m, l, read,
              Top(trail), f, v.errors);
      KeyTracks(c, collect, text, trail, v, w, charged, m, l, Captures(c, collect, charged, m), read, key);
    } else {
      TextKeeps(c, collect, charged.scope, charged.deferred, v.position, KeyEnd(trail), c.limits.maxKeyBytes,
                Captures(c, collect, charged, m), m, l, read);
    }
  }

  lemma TextKeeps(c: Setting, collect: bool, scope: Scope, deferred: bool, start: nat, end: nat, limit: nat,
                  capture: bool, m: Errors, l: Errors, read: Result<Scanned>)
    requires TextScanned(c, collect, scope, deferred, start, end, limit, capture, m, l, read)
    ensures Keeps(m, l)
  {
  }

  ghost predicate AtDue(c: Setting, collect: bool, text: Tree, trail: seq<Reading>, v: View, role: Role, scope: Scope,
                        deferred: bool) {
    At(c, collect, text, trail, v) && ValueState(c.raw, TopState(v), v.position)
    && Passed(c, collect, v, role, scope, deferred)
  }

  // An element that cannot be charged is one too many.
  lemma ElementStops(c: Setting, collect: bool, text: Tree, trail: seq<Reading>, v: View, role: Role, scope: Scope,
                     deferred: bool, failure: Failure)
    requires AtDue(c, collect, text, trail, v, role, scope, deferred) && TopState(v) != ObjectValue
    requires failure.kind == Resource && !collect && v.tally.total >= c.limits.maxContainerItems
    ensures May(c, collect, text, failure)
  {
    hide InStep, Inside, ValueDue;
    ValueThere(c, collect, text, trail, v);
    ItemRefused(c, collect, text, Under(trail), AtValue(Top(trail)), ValueView(v));
  }

  lemma ValueStops(c: Setting, collect: bool, text: Tree, trail: seq<Reading>, v: View, u: View, x: View, role: Role,
                   scope: Scope, deferred: bool, failure: Failure)
    requires AtDue(c, collect, text, trail, v, role, scope, deferred) && Waits(c, collect, v, u)
    requires Due(c, collect, DueValue(trail), scope, deferred, v.position) ==>
      ValueScanned(c, collect, DueValue(trail), role, scope, deferred, u, x, Err(failure))
    ensures May(c, collect, text, failure)
  {
    hide InStep, Deserved, ValueScanned, Due, Passed, Waits;
    if v.errors.outer.None? {
      ValuePasses(c, collect, text, trail, v, role, scope, deferred);
      WaitsSame(c, collect, v, u);
      ValueRefused(c, collect, text, trail, v, u, x, role, scope, deferred, failure);
    }
  }

  lemma ValueGoesOn(c: Setting, collect: bool, text: Tree, trail: seq<Reading>, v: View, u: View, x: View, w: View,
                    role: Role, scope: Scope, deferred: bool, kind: ValueKind)
    requires AtDue(c, collect, text, trail, v, role, scope, deferred) && Waits(c, collect, v, u)
    requires Due(c, collect, DueValue(trail), scope, deferred, v.position) ==>
      ValueScanned(c, collect, DueValue(trail), role, scope, deferred, u, x, Ok(kind))
    requires Keeps(u.errors, x.errors) && ValueNoted(c, v, x, w, role, kind)
    ensures Tracks(c, collect, text, ValueNext(c, trail), w)
  {
    hide InStep, ValueScanned, Due, Passed, ValueNoted, Waits;
    WaitsSame(c, collect, v, u);
    NotedSame(c, v, x, w, role, kind);
    if v.errors.outer.None? {
      ValuePasses(c, collect, text, trail, v, role, scope, deferred);
      ScannedKind(c, collect, DueValue(trail), role, scope, deferred, u, x, kind);
      ValueTracks(c, collect, text, trail, v, u, x, w, role, scope, deferred);
    }
  }

  lemma ScannedKind(c: Setting, collect: bool, t: Tree, role: Role, scope: Scope, deferred: bool, u: View, x: View,
                    kind: ValueKind)
    requires ValueScanned(c, collect, t, role, scope, deferred, u, x, Ok(kind))
    ensures kind == t.Kind()
  {
  }

  // Beyond the depth limit.
  lemma KeyIsPassed(c: Setting, collect: bool, text: Tree, trail: seq<Reading>, v: View, w: View, end: nat)
    requires At(c, collect, text, trail, v) && v.overflow != [] && KeyState(c.raw, TopState(v), v.position)
    requires String(c.raw, v.position, end)
    requires w == v.(position := end, overflow := v.overflow[|v.overflow| - 1 := ObjectColon])
    ensures Tracks(c, collect, text, KeyNext(trail), w)
  {
    hide InStep, Inside, KeyDue, String;
    if v.errors.outer.None? {
      KeyThere(c, collect, text, trail, v);
      StringUnique(c.raw, v.position, end, KeyEnd(trail));
      KeyPassesTracks(c, collect, text, trail, v, w);
    }
  }

  // In step, a separator or the closing bracket comes where one is due.
  lemma SeparatorStops(c: Setting, collect: bool, text: Tree, trail: seq<Reading>, v: View, failure: Failure)
    requires At(c, collect, text, trail, v) && Separates(TopState(v))
    requires !(v.position < |c.raw| && c.raw[v.position] == if TopState(v) == ObjectColon then 0x3A else 0x2C)
    requires TopState(v) != ObjectColon ==> !(v.position < |c.raw| && c.raw[v.position] == Closing(TopState(v)))
    ensures May(c, collect, text, failure)
  {
    hide InStep, Deserved;
    if v.errors.outer.None? {
      SeparatorComes(c, collect, text, trail, v);
    }
  }

  lemma KeyUnquoted(c: Setting, collect: bool, text: Tree, trail: seq<Reading>, v: View, failure: Failure)
    requires At(c, collect, text, trail, v) && KeyState(c.raw, TopState(v), v.position)
    requires forall end: nat :: !String(c.raw, v.position, end)
    ensures May(c, collect, text, failure)
  {
    hide InStep, Inside, KeyDue, Deserved, String;
    if v.errors.outer.None? {
      KeyThere(c, collect, text, trail, v);
    }
  }

  // In step, the method's name can be decoded.
  lemma MethodStops(c: Setting, collect: bool, text: Tree, trail: seq<Reading>, v: View, u: View, x: View, n: Errors,
                    role: Role, scope: Scope, deferred: bool, kind: ValueKind, now: Called, failure: Failure)
    requires AtDue(c, collect, text, trail, v, role, scope, deferred) && Waits(c, collect, v, u) && NamesMethod(v)
    requires Due(c, collect, DueValue(trail), scope, deferred, v.position) ==>
      ValueScanned(c, collect, DueValue(trail), role, scope, deferred, u, x, Ok(kind))
    requires MethodNoted(c, kind, v.position, x.errors, n, x.called, now, Some(failure))
    ensures May(c, collect, text, failure)
  {
    hide InStep, Deserved, Due, Passed, Waits, ScalarFaults, Spells, Delimited, NamesMethod, StringResult, Judged,
      ReadingAt, CurrentSpot;
    WaitsSame(c, collect, v, u);
    if !collect {
      ValueThere(c, collect, text, trail, v);
      ValuePasses(c, collect, text, trail, v, role, scope, deferred);
      MethodNames(c, collect, text, trail, v);
      var r := AtValue(Top(trail));
      OuterText(c, Begun(r));
      InStepAddressable(c, collect, text, Under(trail) + [r], ValueView(v));
      DueScalar(c, r, v.position);
      WholeMethod(c, DueValue(trail), v.errors, x.errors);
    }
  }

  lemma WholeMethod(c: Setting, t: Tree, e: Errors, x: Errors)
    requires Addressable(c.raw) && Spells(c.raw, t) && x.outer.None?
    requires t.Scalar? && t.scalar == StringKind ==> Judged(e, ScalarFaults(c, t, OuterLayer, OuterLayer), x)
    ensures t.Kind() == StringKind ==> StringResult(c.raw, t.start, NO_LIMIT, true).Ok?
  {
    hide String, Text, Whole, StringResult;
    if t.Kind() == StringKind {
      TextShort(c.raw, t.start, t.end);
      StringMeans(c.raw, t.start, t.end, NO_LIMIT, true);
      assert Fault(OuterLayer, Unicode) !in ScalarFaults(c, t, OuterLayer, OuterLayer);
    }
  }

  // A value was begun from `v`, with its container waiting in `u`, and read up to `x`.
  ghost predicate Begins(c: Setting, collect: bool, text: Tree, trail: seq<Reading>, v: View, u: View, x: View,
                         role: Role, scope: Scope, deferred: bool, value: Result<ValueKind>) {
    && AtDue(c, collect, text, trail, v, role, scope, deferred) && Waits(c, collect, v, u)
    && x == u.(position := x.position, stack := x.stack, overflow := x.overflow, errors := x.errors)
    && Keeps(u.errors, x.errors)
    && (Due(c, collect, DueValue(trail), scope, deferred, v.position) ==>
          ValueScanned(c, collect, DueValue(trail), role, scope, deferred, u, x, value))
  }

  lemma BeginsSame(c: Setting, collect: bool, text: Tree, trail: seq<Reading>, v: View, u: View, x: View, role: Role,
                   scope: Scope, deferred: bool, value: Result<ValueKind>)
    requires Begins(c, collect, text, trail, v, u, x, role, scope, deferred, value)
    ensures x.arguments == v.arguments && x.called == v.called && v.stack != []
  {
    hide Tracks, Due, ValueScanned;
  }

  // The value cannot be read.
  lemma BeginsAndStops(c: Setting, collect: bool, text: Tree, trail: seq<Reading>, v: View, u: View, x: View,
                       role: Role, scope: Scope, deferred: bool, failure: Failure)
    requires Begins(c, collect, text, trail, v, u, x, role, scope, deferred, Err(failure))
    ensures May(c, collect, text, failure)
  {
    hide Tracks, Due, ValueScanned, Waits, May;
    ValueStops(c, collect, text, trail, v, u, x, role, scope, deferred, failure);
  }

  // The value is read, and noted where it is of the protocol's own.
  lemma BeginsAndEnds(c: Setting, collect: bool, text: Tree, trail: seq<Reading>, v: View, u: View, x: View, w: View,
                      role: Role, scope: Scope, deferred: bool, kind: ValueKind)
    requires Begins(c, collect, text, trail, v, u, x, role, scope, deferred, Ok(kind))
    requires ValueNoted(c, v, x, w, role, kind)
    ensures Tracks(c, collect, text, ValueNext(c, trail), w)
  {
    hide Tracks, Due, ValueScanned, Waits, ValueNoted;
    ValueGoesOn(c, collect, text, trail, v, u, x, w, role, scope, deferred, kind);
  }

  lemma BeginsUnnamed(c: Setting, collect: bool, text: Tree, trail: seq<Reading>, v: View, u: View, x: View, n: Errors,
                      role: Role, scope: Scope, deferred: bool, kind: ValueKind, now: Called, failure: Failure)
    requires Begins(c, collect, text, trail, v, u, x, role, scope, deferred, Ok(kind)) && NamesMethod(v)
    requires MethodNoted(c, kind, v.position, x.errors, n, x.called, now, Some(failure))
    ensures May(c, collect, text, failure)
  {
    hide Tracks, Due, ValueScanned, Waits, MethodNoted, May;
    MethodStops(c, collect, text, trail, v, u, x, n, role, scope, deferred, kind, now, failure);
  }

  // An element is read, of which nothing is noted.
  lemma ElementEnds(c: Setting, collect: bool, text: Tree, trail: seq<Reading>, v: View, u: View, x: View, scope: Scope,
                    deferred: bool, kind: ValueKind)
    requires Begins(c, collect, text, trail, v, u, x, Generic, scope, deferred, Ok(kind)) && !NamesMethod(v)
    ensures Tracks(c, collect, text, ValueNext(c, trail), x)
  {
    hide Tracks, Begins, ValueNext;
    BeginsSame(c, collect, text, trail, v, u, x, Generic, scope, deferred, Ok(kind));
    BeginsAndEnds(c, collect, text, trail, v, u, x, x, Generic, scope, deferred, kind);
  }

  lemma NotedSo(c: Setting, v: View, frame: Frame, x: View, w: View, role: Role, kind: ValueKind)
    requires v.stack != [] && v.overflow == [] && frame == v.stack[|v.stack| - 1] && frame.kind == ObjectKind
    requires w == x.(errors := w.errors, called := w.called, arguments := w.arguments)
    requires
      if frame.role == Root && frame.pendingKey == METHOD_KEY then
        Keeps(x.errors, w.errors) && MethodNoted(c, kind, v.position, x.errors, w.errors, x.called, w.called, None)
      else w.errors == x.errors && w.called == x.called
    requires w.arguments == (if role == RawArguments && kind != ObjectKind && kind != ArrayKind then
                               ArgumentsAt(kind, v.position, x.position)
                             else v.arguments)
    ensures ValueNoted(c, v, x, w, role, kind)
  {
    hide MethodNoted;
  }

  // A separator was taken from `v`, and the container on top goes on to its next state.
  ghost predicate Separated(c: Setting, collect: bool, text: Tree, trail: seq<Reading>, v: View, u: View, next: State) {
    && At(c, collect, text, trail, v) && Separates(TopState(v)) && next == Next(TopState(v))
    && u == v.(position := v.position + 1) && v.position < |c.raw|
    && c.raw[v.position] == if TopState(v) == ObjectColon then 0x3A else 0x2C
  }

  // A closing bracket was taken from `v`.
  ghost predicate Bracketed(c: Setting, collect: bool, text: Tree, trail: seq<Reading>, v: View, u: View) {
    && At(c, collect, text, trail, v) && Brackets(TopState(v))
    && u == v.(position := v.position + 1) && v.position < |c.raw| && c.raw[v.position] == Closing(TopState(v))
  }

  function Beyond(trail: seq<Reading>, state: State): seq<Reading> {
    Under(trail) + [Top(trail).(state := state)]
  }

  lemma DueInArray(c: Setting, collect: bool, text: Tree, trail: seq<Reading>, v: View)
    requires Tracks(c, collect, text, trail, v) && v.stack != [] && v.overflow == [] && Blocked(c.raw, v.position)
    requires v.stack[|v.stack| - 1].kind == ArrayKind && ValueState(c.raw, v.stack[|v.stack| - 1].state, v.position)
    ensures
      var f := v.stack[|v.stack| - 1];
      AtDue(c, collect, text, trail, v, Generic, f.scope, f.deferred) && !NamesMethod(v)
  {
    hide Tracks;
  }

  // Beyond the depth limit a value waits to be read in the scope of the container that is compact.
  lemma BeginsCompact(c: Setting, collect: bool, text: Tree, trail: seq<Reading>, v: View, u: View, x: View,
                      after: State, value: Result<ValueKind>)
    requires Tracks(c, collect, text, trail, v) && v.overflow != [] && Blocked(c.raw, v.position)
    requires v.stack != [] && v.stack[|v.stack| - 1].compactChildren
    requires ValueState(c.raw, v.overflow[|v.overflow| - 1], v.position) && after == After(v.overflow[|v.overflow| - 1])
    requires u == v.(overflow := v.overflow[|v.overflow| - 1 := after])
    requires x == u.(position := x.position, stack := x.stack, overflow := x.overflow, errors := x.errors)
    requires Keeps(u.errors, x.errors)
    requires
      var f := v.stack[|v.stack| - 1];
      Due(c, collect, DueValue(trail), f.scope, f.deferred, v.position) ==>
        ValueScanned(c, collect, DueValue(trail), Generic, f.scope, f.deferred, u, x, value)
    ensures
      match value
      case Err(failure) => May(c, collect, text, failure)
      case Ok(_) => Tracks(c, collect, text, ValueNext(c, trail), x)
  {
    hide Tracks, Due, ValueScanned, May, ValueNext, DueValue;
    var f := v.stack[|v.stack| - 1];
    match value
    case Err(failure) => BeginsAndStops(c, collect, text, trail, v, u, x, Generic, f.scope, f.deferred, failure);
    case Ok(kind) => ElementEnds(c, collect, text, trail, v, u, x, f.scope, f.deferred, kind);
  }

  // ---- The message as a whole ----

  lemma RootDue(c: Setting, collect: bool, text: Tree, start: nat)
    requires Addressable(c.raw) && Parses(c.raw, text) && Space(c.raw, 0, start) && Blocked(c.raw, start)
    ensures start == text.start
    ensures Due(c, collect, text, if collect then ScopeEnvelope else ScopeValue, false, start)
  {
    hide Spells;
    SpellsStart(c.raw, text);
    SpaceStops(c.raw, 0, start, text.start);
  }

  function RootTrail(text: Tree): seq<Reading> {
    if text.Scalar? then [] else [] + [Opened(text, TopSpot)]
  }

  lemma RootSettles(c: Setting, text: Tree)
    ensures TrailOk(RootTrail(text)) && (RootTrail(text) != [] ==> RootTrail(text)[0].tree == text)
    ensures
      var faults := if text.Scalar? then ScalarFaults(c, text, OuterLayer, OuterLayer)
          else DepthFaults(c, 0, OuterLayer);
      forall fault :: Free(c, text, TopSpot, 0, fault) <==> fault !in faults && TrailFree(c, RootTrail(text), fault)
    ensures forall outer :: TrailItems(c, RootTrail(text), outer) == Items(c, text, TopSpot, outer)
  {
    hide ScalarFaults, DepthFaults, RestFree, RestItems, KeyFaults;
    if !text.Scalar? {
      var o := Opened(text, TopSpot);
      forall fault ensures Free(c, text, TopSpot, 0, fault) <==>
        fault !in DepthFaults(c, 0, OuterLayer) && TrailFree(c, RootTrail(text), fault) {
        OpenSettles(c, text, TopSpot, 0, fault);
        TopFree(c, [], o, fault);
      }
      forall outer ensures TrailItems(c, RootTrail(text), outer) == Items(c, text, TopSpot, outer) {
        OpenCharges(c, text, TopSpot, outer);
        TopItems(c, [], o, outer);
      }
    }
  }

  // Where nothing was wrong before, errors stand to the text as to its first token and the rest.
  lemma StandingStarts(c: Setting, text: Tree, faults: set<Fault>, next: seq<Reading>, n: Errors)
    requires TrailOk(next) && Judged(Errors(None, None, None), faults, n)
    requires forall fault :: Free(c, text, TopSpot, 0, fault) <==> fault !in faults && TrailFree(c, next, fault)
    ensures
      if n.outer.Some? then Accused(c, text, OuterLayer, n.outer.value.failure.kind)
      else Standing(c, text, next, n)
  {
    hide Free, TrailFree;
  }

  // The view of a scanner before the message.
  function Fresh(start: nat): View {
    View(start, [], [], Errors(None, None, None), Tally(0, 0, false), Called(false, []), NoArguments)
  }

  lemma RootShape(c: Setting, collect: bool, text: Tree, w: View, scope: Scope)
    requires Addressable(c.raw) && Parses(c.raw, text)
    requires scope == if collect then ScopeEnvelope else ScopeValue
    requires ValueScanned(c, collect, text, Root, scope, false, Fresh(text.start), w, Ok(text.Kind()))
    requires w.errors.outer.None? && TrailOk(RootTrail(text))
    ensures Shaped(c, text, RootTrail(text), w)
    ensures FramesAgree(c, collect, w.stack, RootTrail(text), w.errors)
  {
    hide Spells, Judged, DepthFaults, ScalarFaults, NewFrame, FrameExact, ReadingAt;
    if !text.Scalar? {
      OpenReads(c.raw, text, TopSpot);
      OpenedState(text, TopSpot);
      RootFrame(c, collect, text, scope, w.errors);
    }
  }

  lemma RootFrame(c: Setting, collect: bool, text: Tree, scope: Scope, n: Errors)
    requires !text.Scalar? && scope == if collect then ScopeEnvelope else ScopeValue
    requires Judged(Errors(None, None, None), DepthFaults(c, 0, OuterLayer), n) && n.outer.None?
    ensures
      FrameAgrees(c, collect, NewFrame(text.Kind(), Root, scope, false, 0 >= c.limits.maxDepth, text.start, collect),
                  Opened(text, TopSpot), n)
  {
    NewFrameAgrees(c, collect, text, Root, scope, false, TopSpot, 0 >= c.limits.maxDepth, n);
  }

  lemma RootTracks(c: Setting, collect: bool, text: Tree, w: View, scope: Scope, kind: ValueKind)
    requires Addressable(c.raw) && Parses(c.raw, text)
    requires scope == if collect then ScopeEnvelope else ScopeValue
    requires ValueScanned(c, collect, text, Root, scope, false, Fresh(text.start), w, Ok(kind))
    ensures kind == text.Kind() && Tracks(c, collect, text, RootTrail(text), w)
  {
    hide Spells, DepthFaults, ScalarFaults, NewFrame, Free, TrailFree, TrailItems, Items, Shaped, FramesAgree, Standing,
      Judged;
    RootSettles(c, text);
    var faults := if text.Scalar? then ScalarFaults(c, text, OuterLayer, OuterLayer) else DepthFaults(c, 0, OuterLayer);
    StandingStarts(c, text, faults, RootTrail(text), w.errors);
    if w.errors.outer.None? {
      RootShape(c, collect, text, w, scope);
    }
    assert TrailItems(c, RootTrail(text), true) == Items(c, text, TopSpot, true);
    assert TrailItems(c, RootTrail(text), false) == Items(c, text, TopSpot, false);
  }

  lemma RootStops(c: Setting, collect: bool, text: Tree, w: View, scope: Scope, failure: Failure)
    requires scope == if collect then ScopeEnvelope else ScopeValue
    requires ValueScanned(c, collect, text, Root, scope, false, Fresh(text.start), w, Err(failure))
    ensures !collect && Deserved(c, text, failure)
  {
    hide DepthFaults, ScalarFaults, TrailFree, TrailItems, Items, Free;
    RootSettles(c, text);
  }

  // What the scanner knows when every container has been closed.
  lemma EndTells(c: Setting, collect: bool, text: Tree, trail: seq<Reading>, v: View)
    requires Tracks(c, collect, text, trail, v) && v.errors.outer.None? && v.stack == [] && v.overflow == []
    ensures v.position == text.end && Clean(c, text, OuterLayer)
    ensures
      if v.errors.params.Some? then Accused(c, text, ParamsLayer, v.errors.params.value.failure.kind)
      else
        && Clean(c, text, ParamsLayer)
        && v.tally.total == Items(c, text, TopSpot, false) && v.arguments == Recorded(MessageArguments(c, text))
        && if v.errors.held.Some? then Accused(c, text, HeldLayer, v.errors.held.value.failure.kind)
           else Clean(c, text, HeldLayer)
    ensures collect ==>
      && v.tally.outer == Items(c, text, TopSpot, true) && v.tally.outer <= v.tally.total
      && (v.tally.exhausted <==> v.tally.total > c.limits.maxContainerItems)
    ensures !collect ==> v.tally.total <= c.limits.maxContainerItems
    ensures v.called.isString && v.called.name == TOOLS_CALL <==> IsToolCall(c.raw, text)
  {
    hide Spells, Free, Items, LastField, Text, MessageArguments;
    assert |TrailStates(trail)| == |trail|;
    assert trail == [];
    forall fault ensures TrailFree(c, trail, fault) {
    }
  }
}
