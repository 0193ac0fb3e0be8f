/**
 * The transcription server's typed API errors: the four error kinds, the
 * detail records attached to them and the factories that build them with
 * their fixed messages and HTTP status codes.
 */
module Errors {
  import opened Wrappers

  /** `ErrorType`: the four kinds of API error. */
  datatype ErrorType = ValidationError | TranscriptionError | FileSystemError | ServerError

  /** The tag each kind is sent as. */
  function TypeTag(t: ErrorType): (tag: string)
    ensures |tag| > 6 && tag[|tag| - 6..] == "_ERROR"
  {
    match t
    case ValidationError => "VALIDATION_ERROR"
    case TranscriptionError => "TRANSCRIPTION_ERROR"
    case FileSystemError => "FILE_SYSTEM_ERROR"
    case ServerError => "SERVER_ERROR"
  }

  /** Different kinds are sent as different tags. */
  lemma TypeTagInjective(a: ErrorType, b: ErrorType)
    ensures TypeTag(a) == TypeTag(b) <==> a == b
  {
    if a != b {
      assert TypeTag(a)[0] != TypeTag(b)[0] || |TypeTag(a)| != |TypeTag(b)|;
    }
  }

  /** The file-system operation that failed. */
  datatype FsOperation = Read | Write | Delete | Access

  function OperationName(op: FsOperation): (name: string)
    ensures name != [] && forall k :: 0 <= k < |name| ==> 'a' <= name[k] <= 'z'
  {
    match op
    case Read => "read"
    case Write => "write"
    case Delete => "delete"
    case Access => "access"
  }

  /** Different operations are named differently. */
  lemma OperationNameInjective(a: FsOperation, b: FsOperation)
    ensures OperationName(a) == OperationName(b) <==> a == b
  {
    if a != b {
      assert OperationName(a)[0] != OperationName(b)[0] || |OperationName(a)| != |OperationName(b)|;
    }
  }

  /**
   * What an error's `details` may hold: the three documented detail records, or
   * any other value a caller of `createError` passes (kept as its description).
   */
  datatype ErrorDetails =
    | ValidationDetails(field: string, reason: string)
    | TranscriptionDetails(audioFile: Option<string>, modelName: Option<string>, errorCode: Option<string>)
    | FileSystemDetails(path: Option<string>, operation: FsOperation, systemError: Option<string>)
    | OtherDetails(description: string)

  /** `APIError`: a kind, a message, and optional details and status code. */
  datatype APIError = APIError(errorType: ErrorType, message: string, details: Option<ErrorDetails>, code: Option<int>)

  const BadRequest: int := 400
  const InternalServerError: int := 500
  const ValidationPrefix: string := "Validation failed for "
  const FileSystemPrefix: string := "File system "
  const FileSystemSuffix: string := " operation failed"

  /** `createError`: a record holding exactly the given kind, message, details and code. */
  function CreateError(errorType: ErrorType, message: string, details: Option<ErrorDetails>, code: Option<int>): (e: APIError)
    ensures e.errorType == errorType && e.message == message && e.details == details && e.code == code
  {
    APIError(errorType, message, details, code)
  }

  /** `createValidationError`: status 400, a message naming the field, and the field and reason as details. */
  function CreateValidationError(field: string, reason: string): (e: APIError)
    ensures e.errorType == ValidationError && e.code == Some(BadRequest)
    ensures e.details == Some(ValidationDetails(field, reason))
    ensures |e.message| == |ValidationPrefix| + |field| && e.message[|ValidationPrefix|..] == field
  {
    CreateError(ValidationError, ValidationPrefix + field, Some(ValidationDetails(field, reason)), Some(BadRequest))
  }

  /** `createTranscriptionError`: status 500, the message unchanged, the partial details attached. */
  function CreateTranscriptionError(message: string, audioFile: Option<string>, modelName: Option<string>, errorCode: Option<string>): (e: APIError)
    ensures e.errorType == TranscriptionError && e.code == Some(InternalServerError)
    ensures e.message == message
    ensures e.details == Some(TranscriptionDetails(audioFile, modelName, errorCode))
  {
    CreateError(TranscriptionError, message, Some(TranscriptionDetails(audioFile, modelName, errorCode)), Some(InternalServerError))
  }

  /** `createFileSystemError`: status 500, a message naming the operation, and operation, path and system error as details. */
  function CreateFileSystemError(operation: FsOperation, path: Option<string>, systemError: Option<string>): (e: APIError)
    ensures e.errorType == FileSystemError && e.code == Some(InternalServerError)
    ensures e.details == Some(FileSystemDetails(path, operation, systemError))
  {
    CreateError(FileSystemError, FileSystemPrefix + OperationName(operation) + FileSystemSuffix,
                Some(FileSystemDetails(path, operation, systemError)), Some(InternalServerError))
  }

  /** The rest of `s` after `prefix`, if it starts with it. */
  function StripPrefix(s: string, prefix: string): (r: Option<string>)
    ensures r.Some? <==> prefix <= s
    ensures r.Some? ==> s == prefix + r.value
  {
    if prefix <= s then
      assert s == prefix + s[|prefix|..];
      Some(s[|prefix|..])
    else None
  }

  /** The field a validation message names. */
  function FieldOfMessage(message: string): Option<string> {
    StripPrefix(message, ValidationPrefix)
  }

  /** The operation a file-system message names. */
  function OperationOfMessage(message: string): Option<FsOperation> {
    if message == FileSystemPrefix + "read" + FileSystemSuffix then Some(Read)
    else if message == FileSystemPrefix + "write" + FileSystemSuffix then Some(Write)
    else if message == FileSystemPrefix + "delete" + FileSystemSuffix then Some(Delete)
    else if message == FileSystemPrefix + "access" + FileSystemSuffix then Some(Access)
    else None
  }

  /** The validation message names its field: reading it back recovers the field. */
  lemma ValidationMessageRoundTrip(field: string, reason: string)
    ensures FieldOfMessage(CreateValidationError(field, reason).message) == Some(field)
  {
    var m := CreateValidationError(field, reason).message;
    assert m == ValidationPrefix + field;
    assert ValidationPrefix <= m;
  }

  /** The file-system message names its operation: reading it back recovers the operation. */
  lemma FileSystemMessageRoundTrip(operation: FsOperation, path: Option<string>, systemError: Option<string>)
    ensures OperationOfMessage(CreateFileSystemError(operation, path, systemError).message) == Some(operation)
  {
    var m := CreateFileSystemError(operation, path, systemError).message;
    var k := |FileSystemPrefix|;
    match operation
    case Read =>
    case Write =>
      assert m[k] == 'w';
    case Delete =>
      assert m[k] == 'd';
    case Access =>
      assert m[k] == 'a';
  }

  /** Validation errors for different fields carry different messages. */
  lemma ValidationMessagesDistinct(field1: string, reason1: string, field2: string, reason2: string)
    ensures CreateValidationError(field1, reason1).message == CreateValidationError(field2, reason2).message <==> field1 == field2
  {
    ValidationMessageRoundTrip(field1, reason1);
    ValidationMessageRoundTrip(field2, reason2);
  }

  /**
   * The helpers never produce a server error: validation errors carry 400, the
   * others 500, and the status code alone tells a validation error apart.
   */
  lemma HelpersClassified(field: string, reason: string, message: string,
                          audioFile: Option<string>, modelName: Option<string>, errorCode: Option<string>,
                          operation: FsOperation, path: Option<string>, systemError: Option<string>)
    ensures var errors := [CreateValidationError(field, reason),
                           CreateTranscriptionError(message, audioFile, modelName, errorCode),
                           CreateFileSystemError(operation, path, systemError)];
            && (forall e :: e in errors ==> e.errorType != ServerError && e.code.Some?)
            && (forall e :: e in errors ==> (e.code == Some(BadRequest) <==> e.errorType == ValidationError))
            && (forall e :: e in errors ==> e.code == Some(BadRequest) || e.code == Some(InternalServerError))
  {
  }
}
