// The frames of the protocol scanner's stack, and the debt that they and the compact overflow
// stack owe together.
module JsonFrames {
  import opened Wrappers
  import opened Utf8
  import opened JsonTypes
  import opened JsonGrammar
  import opened JsonPending

  datatype Role = Generic | Root | Params | RawArguments

  datatype Frame = Frame(
    kind: ValueKind, state: State, role: Role, scope: Scope, deferred: bool, compactChildren: bool, start: nat,
    members: nat, membersExhausted: bool, pendingKey: seq<Byte>, seenKeys: set<seq<Byte>>)

  datatype Arguments = NoArguments | ArgumentsAt(kind: ValueKind, start: nat, end: nat)

  // ---- The two stacks as one debt ----

  function States(stack: seq<Frame>): (states: seq<State>)
    ensures |states| == |stack| && forall k :: 0 <= k < |stack| ==> states[k] == stack[k].state
  {
    seq(|stack|, k requires 0 <= k < |stack| => stack[k].state)
  }

  function Debt(stack: seq<Frame>, overflow: seq<State>): seq<State> {
    States(stack) + overflow
  }

  // What one move of the machine keeps: if it succeeds it consumed something, and the text can
  // still be completed exactly when it could before; if it fails on malformed text, it could not.
  ghost predicate Moves(raw: seq<Byte>, collect: bool, i: nat, debt: seq<State>, n: nat, next: seq<State>,
                        failure: Option<Failure>) {
    match failure
    case None => i < n <= |raw| && (Completes(raw, i, debt) <==> Completes(raw, n, next))
    case Some(f) => (Malformed(raw, f) ==> !Completes(raw, i, debt)) && (collect ==> Malformed(raw, f))
  }

  // The same for reading a value that is to be followed by the debt.
  ghost predicate ReadsValue(raw: seq<Byte>, collect: bool, i: nat, debt: seq<State>, n: nat, next: seq<State>,
                             failure: Option<Failure>) {
    match failure
    case None => i < n <= |raw| && (ValueThen(raw, i, debt) <==> Completes(raw, n, next))
    case Some(f) => (Malformed(raw, f) ==> !ValueThen(raw, i, debt)) && (collect ==> Malformed(raw, f))
  }

  predicate FrameValid(frame: Frame, collect: bool) {
    && (frame.kind == ObjectKind || frame.kind == ArrayKind)
    && (frame.kind == ObjectKind <==>
        frame.state in {ObjectFirstKeyOrEnd, ObjectKey, ObjectColon, ObjectValue, ObjectCommaOrEnd})
    && (collect ==> ProtocolScope(frame.scope))
  }

  function FirstState(kind: ValueKind): State {
    if kind == ObjectKind then ObjectFirstKeyOrEnd else ArrayFirstValueOrEnd
  }

  // A container that was just opened.
  function NewFrame(kind: ValueKind, role: Role, scope: Scope, deferred: bool, compactChildren: bool, start: nat,
                    ghost collect: bool): (frame: Frame)
    requires kind == ObjectKind || kind == ArrayKind
    requires collect ==> ProtocolScope(scope)
    ensures FrameValid(frame, collect) && frame.state == FirstState(kind) && frame.compactChildren == compactChildren
  {
    Frame(kind, FirstState(kind), role, scope, deferred, compactChildren, start, 0, false, [], {})
  }

  predicate ProtocolScope(scope: Scope) {
    scope == ScopeEnvelope || scope == ScopeParams
  }

  // Only the topmost frame may keep its children in the compact stack, and it must once the
  // depth limit is passed.
  predicate StackValid(stack: seq<Frame>, overflow: seq<State>, maxDepth: nat, collect: bool) {
    && (overflow != [] ==> stack != [] && stack[|stack| - 1].compactChildren)
    && (forall k :: 0 <= k < |stack| ==> FrameValid(stack[k], collect))
    && (forall k :: 0 <= k < |stack| - 1 ==> !stack[k].compactChildren)
    && |stack| <= maxDepth + 1
    && (|stack| == maxDepth + 1 ==> stack[|stack| - 1].compactChildren)
  }

  lemma StackShape(stack: seq<Frame>, overflow: seq<State>, maxDepth: nat, collect: bool)
    requires StackValid(stack, overflow, maxDepth, collect)
    ensures overflow != [] ==> stack != [] && stack[|stack| - 1].compactChildren
    ensures stack != [] ==> FrameValid(stack[|stack| - 1], collect)
  {
  }

  lemma FrameReplaced(stack: seq<Frame>, frame: Frame, maxDepth: nat, collect: bool)
    requires StackValid(stack, [], maxDepth, collect) && stack != [] && FrameValid(frame, collect)
    requires frame.compactChildren == stack[|stack| - 1].compactChildren
    ensures StackValid(stack[|stack| - 1 := frame], [], maxDepth, collect)
    ensures Debt(stack, []) == Debt(stack[..|stack| - 1], []) + [stack[|stack| - 1].state]
    ensures Debt(stack[|stack| - 1 := frame], []) == Debt(stack[..|stack| - 1], []) + [frame.state]
  {
  }

  lemma FramePushed(stack: seq<Frame>, frame: Frame, maxDepth: nat, collect: bool)
    requires StackValid(stack, [], maxDepth, collect) && FrameValid(frame, collect)
    requires stack != [] ==> !stack[|stack| - 1].compactChildren
    requires |stack| >= maxDepth ==> frame.compactChildren
    ensures StackValid(stack + [frame], [], maxDepth, collect)
    ensures Debt(stack + [frame], []) == Debt(stack, []) + [frame.state]
  {
  }

  lemma FramePopped(stack: seq<Frame>, maxDepth: nat, collect: bool)
    requires StackValid(stack, [], maxDepth, collect) && stack != []
    ensures StackValid(stack[..|stack| - 1], [], maxDepth, collect)
    ensures Debt(stack, []) == Debt(stack[..|stack| - 1], []) + [stack[|stack| - 1].state]
  {
  }

  lemma OverflowPushed(stack: seq<Frame>, overflow: seq<State>, state: State, maxDepth: nat, collect: bool)
    requires StackValid(stack, overflow, maxDepth, collect)
    requires stack != [] && stack[|stack| - 1].compactChildren
    ensures StackValid(stack, overflow + [state], maxDepth, collect)
    ensures Debt(stack, overflow + [state]) == Debt(stack, overflow) + [state]
  {
  }

  lemma OverflowTop(stack: seq<Frame>, overflow: seq<State>, state: State, maxDepth: nat, collect: bool)
    requires StackValid(stack, overflow, maxDepth, collect) && overflow != []
    ensures
      var top := |overflow| - 1;
      && StackValid(stack, overflow[..top], maxDepth, collect)
      && StackValid(stack, overflow[top := state], maxDepth, collect)
      && Debt(stack, overflow) == Debt(stack, overflow[..top]) + [overflow[top]]
      && Debt(stack, overflow[top := state]) == Debt(stack, overflow[..top]) + [state]
  {
  }

  function Saturated(n: nat): nat {
    if n < NO_LIMIT then n + 1 else n
  }

  // The role and scope of a member's value: `params` opens the params layer, and its
  // `arguments` are left for the tool to judge.
  function ValueRole(mode: Mode, frame: Frame): (Role, Scope, bool) {
    if !frame.deferred && mode == ProtocolWithRawArguments && frame.role == Root
       && frame.pendingKey == PARAMS_KEY then
      (Params, ScopeParams, frame.deferred)
    else if !frame.deferred && mode == ProtocolWithRawArguments && frame.role == Params
            && frame.pendingKey == ARGUMENTS_KEY then
      (RawArguments, frame.scope, true)
    else
      (Generic, frame.scope, frame.deferred)
  }
}
