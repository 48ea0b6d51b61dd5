// The values the JSON scanners exchange: limits, error kinds and scopes.
module JsonTypes {
  import opened Utf8

  datatype ValueKind = ObjectKind | ArrayKind | StringKind | NumberKind | TrueKind | FalseKind | NullKind

  datatype Mode = ValidateAll | ProtocolWithRawArguments | ToolArguments

  datatype ErrorKind = Syntax | Resource | Unicode | Duplicate | Mismatch

  datatype Scope = ScopeValue | ScopeDocument | ScopeEnvelope | ScopeParams

  datatype Failure = Failure(kind: ErrorKind, position: nat)

  datatype ScopedError = ScopedError(failure: Failure, scope: Scope)

  datatype Result<+T> = Ok(value: T) | Err(failure: Failure)

  datatype Limits = Limits(
    maxDepth: nat, maxObjectMembers: nat, maxContainerItems: nat,
    maxKeyBytes: nat, maxStringBytes: nat, maxNumberRawBytes: nat)

  // The largest limit the program can express; it switches a limit off.
  const NO_LIMIT: nat := 0xFFFF_FFFF_FFFF_FFFF

  // The length of a byte slice fits a signed 64-bit integer.
  predicate Addressable(raw: seq<Byte>) {
    |raw| < 0x8000_0000_0000_0000
  }

  // The failure reported for an unexpected byte: malformed UTF-8 is told apart from bad syntax.
  function InvalidAt(raw: seq<Byte>, position: nat): Failure {
    if position >= |raw| then Failure(Syntax, |raw|)
    else if raw[position] < 0x80 || WidthAt(raw, position) > 0 then Failure(Syntax, position)
    else Failure(Unicode, position)
  }

  // Failures that no layer of the protocol may absorb: bad syntax and malformed UTF-8.
  // A Unicode failure at a backslash is an unpaired surrogate escape, which is well-formed text.
  predicate Malformed(raw: seq<Byte>, failure: Failure) {
    failure.kind == Syntax ||
    (failure.kind == Unicode && !(failure.position < |raw| && raw[failure.position] == 0x5C))
  }

  // ---- The names the protocol knows ----

  const JSONRPC_KEY: seq<Byte> := [0x6A, 0x73, 0x6F, 0x6E, 0x72, 0x70, 0x63]
  const ID_KEY: seq<Byte> := [0x69, 0x64]
  const METHOD_KEY: seq<Byte> := [0x6D, 0x65, 0x74, 0x68, 0x6F, 0x64]
  const PARAMS_KEY: seq<Byte> := [0x70, 0x61, 0x72, 0x61, 0x6D, 0x73]
  const RESULT_KEY: seq<Byte> := [0x72, 0x65, 0x73, 0x75, 0x6C, 0x74]
  const ERROR_KEY: seq<Byte> := [0x65, 0x72, 0x72, 0x6F, 0x72]
  const ARGUMENTS_KEY: seq<Byte> := [0x61, 0x72, 0x67, 0x75, 0x6D, 0x65, 0x6E, 0x74, 0x73]
  const TOOLS_CALL: seq<Byte> := [0x74, 0x6F, 0x6F, 0x6C, 0x73, 0x2F, 0x63, 0x61, 0x6C, 0x6C]
}
