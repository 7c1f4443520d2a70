/** Error codes and their recovery from messages (src/error.rs). */
module Errors {
  import opened Basics

  datatype ErrorCode =
    | Success | InvalidArgument | InvalidTableName | InvalidInput | TableNotFound | DatabaseNotFound
    | DatabaseAlreadyExists | IndexNotFound | EmbeddingFunctionNotFound | TableAlreadyExists | CreateDir
    | Schema | Runtime | Timeout | ObjectStore | Lance | Http | Retry | Arrow | NotSupported | Other
    | Namespace | PermissionDenied | NotFound | Unknown

  /** Variants of `lance::Error` that the classification tells apart. */
  datatype LanceVariant = LanceNotFound | LanceIndexNotFound | LanceNamespace | LanceOther

  /** `lancedb::error::Error`; `text` is the rendered message, or that of the wrapped source error. */
  datatype LibError =
    | EInvalidTableName(text: string)
    | EInvalidInput(text: string)
    | ETableNotFound(text: string)
    | EDatabaseNotFound(text: string)
    | EDatabaseAlreadyExists(text: string)
    | EIndexNotFound(text: string)
    | EEmbeddingFunctionNotFound(text: string)
    | ETableAlreadyExists(text: string)
    | ECreateDir(text: string)
    | ESchema(text: string)
    | ERuntime(text: string)
    | ETimeout(text: string)
    | EObjectStore(text: string)
    | ELance(variant: LanceVariant, text: string)
    | EHttp(text: string)
    | ERetry(text: string)
    | EArrow(text: string)
    | ENotSupported(text: string)
    | EOther(text: string)
    | EExternal(text: string)

  predicate MatchesAt(text: string, marker: string, i: nat) {
    i + |marker| <= |text| && text[i..i + |marker|] == marker
  }

  /** `str::contains`. */
  predicate Contains(text: string, marker: string) {
    exists i: nat :: i <= |text| && MatchesAt(text, marker, i)
  }

  predicate ContainsAny(text: string, markers: seq<string>) {
    exists k :: 0 <= k < |markers| && Contains(text, markers[k])
  }

  const NAMESPACE_TABLE_NOT_FOUND := "Table not found:"
  const NAMESPACE_NOT_FOUND := "Namespace not found:"
  const PERMISSION_DENIED_MARKERS := ["PermissionDenied", "Permission denied", "AccessDenied"]
  const NOT_FOUND_MARKERS := ["NoSuchBucket"]
  const NAMESPACE_CONNECT_FAILED := "Failed to connect to namespace:"

  function NotFoundFromMessage(message: string): Option<ErrorCode> {
    if Contains(message, NAMESPACE_TABLE_NOT_FOUND) then Some(TableNotFound)
    else if Contains(message, NAMESPACE_NOT_FOUND) then Some(DatabaseNotFound)
    else None
  }

  function StorageFailureFromMessage(message: string): Option<ErrorCode> {
    if ContainsAny(message, PERMISSION_DENIED_MARKERS) then Some(PermissionDenied)
    else if ContainsAny(message, NOT_FOUND_MARKERS) then Some(NotFound)
    else None
  }

  function UnwrapOr(code: Option<ErrorCode>, fallback: ErrorCode): ErrorCode {
    if code.Some? then code.value else fallback
  }

  function LanceFallback(variant: LanceVariant): ErrorCode {
    match variant
    case LanceNotFound => NotFound
    case LanceIndexNotFound => IndexNotFound
    case LanceNamespace => Namespace
    case LanceOther => Lance
  }

  function ErrorToErrorCode(error: LibError): ErrorCode {
    match error
    case EInvalidTableName(_) => InvalidTableName
    case EInvalidInput(message) =>
      if Contains(message, NAMESPACE_CONNECT_FAILED)
      then UnwrapOr(StorageFailureFromMessage(message), Lance)
      else InvalidInput
    case ETableNotFound(_) => TableNotFound
    case EDatabaseNotFound(_) => DatabaseNotFound
    case EDatabaseAlreadyExists(_) => DatabaseAlreadyExists
    case EIndexNotFound(_) => IndexNotFound
    case EEmbeddingFunctionNotFound(_) => EmbeddingFunctionNotFound
    case ETableAlreadyExists(_) => TableAlreadyExists
    case ECreateDir(_) => CreateDir
    case ESchema(_) => Schema
    case ERuntime(message) => UnwrapOr(NotFoundFromMessage(message), Runtime)
    case ETimeout(_) => Timeout
    case EObjectStore(message) => UnwrapOr(StorageFailureFromMessage(message), ObjectStore)
    case ELance(variant, message) =>
      var recovered := NotFoundFromMessage(message);
      if recovered.Some? then recovered.value
      else UnwrapOr(StorageFailureFromMessage(message), LanceFallback(variant))
    case EHttp(_) => Http
    case ERetry(_) => Retry
    case EArrow(_) => Arrow
    case ENotSupported(_) => NotSupported
    case EOther(_) => Other
    case EExternal(_) => Other
  }

  /** How much a code tells: the recovered failures in the order in which they are looked for. */
  function Rank(code: ErrorCode): nat {
    match code
    case TableNotFound => 5
    case DatabaseNotFound => 4
    case PermissionDenied => 3
    case NotFound => 2
    case Lance => 1
    case _ => 0
  }

  /** Whether the code of this kind of error is recovered from its message. */
  predicate Recovered(error: LibError) {
    error.EInvalidInput? || error.ERuntime? || error.EObjectStore? || error.ELance?
  }

  /** The error with its message embedded in a longer one, as wrapping layers do. */
  function Wrapped(error: LibError, before: string, after: string): LibError {
    error.(text := before + error.text + after)
  }

  lemma ContainsSurvivesWrapping(text: string, marker: string, before: string, after: string)
    requires Contains(text, marker)
    ensures Contains(before + text + after, marker)
  {
    var i: nat :| i <= |text| && MatchesAt(text, marker, i);
    var whole := before + text + after;
    assert whole[|before| + i..|before| + i + |marker|] == text[i..i + |marker|];
    assert MatchesAt(whole, marker, |before| + i);
  }

  lemma ContainsAnySurvivesWrapping(text: string, markers: seq<string>, before: string, after: string)
    requires ContainsAny(text, markers)
    ensures ContainsAny(before + text + after, markers)
  {
    var k :| 0 <= k < |markers| && Contains(text, markers[k]);
    ContainsSurvivesWrapping(text, markers[k], before, after);
  }

  /** Wrapping never makes an error less specific; when its rank does not rise, neither does its code change. */
  lemma WrappingNeverLowersTheRank(error: LibError, before: string, after: string)
    ensures var code, code' := ErrorToErrorCode(error), ErrorToErrorCode(Wrapped(error, before, after));
            && Rank(code) <= Rank(code')
            && (Rank(code) == Rank(code') ==> code == code')
            && (!Recovered(error) ==> code == code')
  {
    hide Contains, ContainsAny;
    var text := error.text;
    forall marker | Contains(text, marker) ensures Contains(before + text + after, marker) {
      ContainsSurvivesWrapping(text, marker, before, after);
    }
    forall markers | ContainsAny(text, markers) ensures ContainsAny(before + text + after, markers) {
      ContainsAnySurvivesWrapping(text, markers, before, after);
    }
  }

  /** Which message yields which code, for the errors whose messages are searched (`Recovered`). */
  lemma RecoveredCodes(error: LibError)
    requires Recovered(error)
    ensures var code, text := ErrorToErrorCode(error), error.text;
            var searchNames := error.ERuntime? || error.ELance?;
            var searchStorage := error.EObjectStore? || error.ELance?
                              || (error.EInvalidInput? && Contains(text, NAMESPACE_CONNECT_FAILED));
            && (code == TableNotFound <==> searchNames && Contains(text, NAMESPACE_TABLE_NOT_FOUND))
            && (code == DatabaseNotFound <==>
                  searchNames && Contains(text, NAMESPACE_NOT_FOUND) && !Contains(text, NAMESPACE_TABLE_NOT_FOUND))
            && (code == PermissionDenied <==>
                  && searchStorage && ContainsAny(text, PERMISSION_DENIED_MARKERS)
                  && (searchNames ==> NotFoundFromMessage(text).None?))
            && (code == NotFound <==>
                  && searchStorage && !ContainsAny(text, PERMISSION_DENIED_MARKERS)
                  && (ContainsAny(text, NOT_FOUND_MARKERS) || error == ELance(LanceNotFound, text))
                  && (searchNames ==> NotFoundFromMessage(text).None?))
  {
    hide Contains, ContainsAny;
  }

  /**
   Which errors are reported with a code. Runtime and lance errors are searched for the texts of a namespace
   backend; object store and lance errors, and a failure to connect to a namespace, for those of a storage
   backend; what is found in the text decides before the kind of the error does.
   */
  ghost predicate Reports(code: ErrorCode, error: LibError) {
    var text := error.text;
    var noTable, noNamespace := Contains(text, "Table not found:"), Contains(text, "Namespace not found:");
    var denied := Contains(text, "PermissionDenied") || Contains(text, "Permission denied")
                  || Contains(text, "AccessDenied");
    var noBucket := Contains(text, "NoSuchBucket");
    var unconnected := error.EInvalidInput? && Contains(text, "Failed to connect to namespace:");
    var named := (error.ERuntime? || error.ELance?) && (noTable || noNamespace);
    var stored := (error.EObjectStore? || error.ELance? || unconnected) && (denied || noBucket);
    var plainLance := error.ELance? && !named && !stored;
    match code
    case TableNotFound => error.ETableNotFound? || (named && noTable)
    case DatabaseNotFound => error.EDatabaseNotFound? || (named && !noTable)
    case PermissionDenied => stored && denied && !named
    case NotFound => (stored && !denied && !named) || (plainLance && error.variant.LanceNotFound?)
    case IndexNotFound => error.EIndexNotFound? || (plainLance && error.variant.LanceIndexNotFound?)
    case Namespace => plainLance && error.variant.LanceNamespace?
    case Lance => (plainLance && error.variant.LanceOther?) || (unconnected && !stored)
    case InvalidInput => error.EInvalidInput? && !unconnected
    case Runtime => error.ERuntime? && !named
    case ObjectStore => error.EObjectStore? && !stored
    case Other => error.EOther? || error.EExternal?
    case InvalidTableName => error.EInvalidTableName?
    case DatabaseAlreadyExists => error.EDatabaseAlreadyExists?
    case EmbeddingFunctionNotFound => error.EEmbeddingFunctionNotFound?
    case TableAlreadyExists => error.ETableAlreadyExists?
    case CreateDir => error.ECreateDir?
    case Schema => error.ESchema?
    case Timeout => error.ETimeout?
    case Http => error.EHttp?
    case Retry => error.ERetry?
    case Arrow => error.EArrow?
    case NotSupported => error.ENotSupported?
    case Success => false
    case InvalidArgument => false
    case Unknown => false
  }

  lemma AnyOfThree(text: string, a: string, b: string, c: string)
    ensures ContainsAny(text, [a, b, c]) <==> Contains(text, a) || Contains(text, b) || Contains(text, c)
  {
    var markers := [a, b, c];
    hide Contains;
    assert markers[0] == a && markers[1] == b && markers[2] == c;
  }

  lemma AnyOfOne(text: string, a: string)
    ensures ContainsAny(text, [a]) <==> Contains(text, a)
  {
    var markers := [a];
    hide Contains;
    assert markers[0] == a;
  }

  /** Every error has exactly one code, and each code is given to exactly the errors that report it. */
  lemma CodesOfErrors(error: LibError, code: ErrorCode)
    ensures ErrorToErrorCode(error) == code <==> Reports(code, error)
  {
    hide Contains, ContainsAny;
    AnyOfThree(error.text, "PermissionDenied", "Permission denied", "AccessDenied");
    AnyOfOne(error.text, "NoSuchBucket");
  }

  /** Two errors whose texts are not searched share a code only if they are of one kind or both report `Other`. */
  lemma UnsearchedKindsHaveTheirOwnCodes(e: LibError, f: LibError)
    requires !Recovered(e) && !Recovered(f) && ErrorToErrorCode(e) == ErrorToErrorCode(f)
    ensures e == f.(text := e.text) || ErrorToErrorCode(e).Other?
  {
    CodesOfErrors(e, ErrorToErrorCode(e));
    CodesOfErrors(f, ErrorToErrorCode(e));
    hide ErrorToErrorCode, Contains;
  }

  /** No library error is ever reported as success, as the caller's mistake or as an unknown failure. */
  lemma LibraryErrorsHaveTheirOwnCodes(error: LibError)
    ensures ErrorToErrorCode(error) !in {Success, InvalidArgument, Unknown}
  {
    hide Contains, ContainsAny;
  }
}
