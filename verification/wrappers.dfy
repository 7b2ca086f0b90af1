/** Failure-compatible wrappers shared by every module of the model:
    `Option` stands for a Java reference that may be null, `Result` for a
    value or the `AtlasBaseException` (or runtime exception) that replaces it. */
module Wrappers {

  datatype Option<+T> = None | Some(value: T) {

    predicate IsFailure() {
      None?
    }

    function PropagateFailure<U>(): Option<U>
      requires None?
    {
      None
    }

    function Extract(): T
      requires Some?
    {
      value
    }

    function GetOr(default: T): T {
      match this
      case Some(v) => v
      case None => default
    }
  }

  /** The error codes of `AtlasErrorCode` (and the Java runtime exceptions)
      that the modelled code can raise. */
  datatype AtlasError =
    | TypeNameNotFound
    | InvalidLineageEntityType
    | InvalidLineageEntityTypeHideProcess
    | InstanceGuidNotFound
    | InstanceLineageQueryFailed
    | UnauthorizedAccess
    | BadRequest
    | OperationNotSupported
    | JsonError
    | InvalidDisplayName
    | GlossaryTermAlreadyExists
    | AnchorUpdationNotSupported
    | ReadmeFailed
    | TypeNameInvalidFormat
    | AttributeNameInvalid
    | InternalError
    | AccessControlMutationsNotAllowed
    | DataContractError
    | NullPointer
    | ClassCast
    | NumberFormat
    | StringIndexOutOfBounds
    | ArrayIndexOutOfBounds

  datatype Result<+R> = Success(value: R) | Failure(error: AtlasError) {

    predicate IsFailure() {
      Failure?
    }

    function PropagateFailure<U>(): Result<U>
      requires Failure?
    {
      Failure(error)
    }

    function Extract(): R
      requires Success?
    {
      value
    }
  }

  /** A check that either passes or raises the given error. */
  datatype Outcome = Pass | Fail(error: AtlasError) {

    predicate IsFailure() {
      Fail?
    }

    function PropagateFailure<U>(): Result<U>
      requires Fail?
    {
      Failure(error)
    }
  }

  function Need(condition: bool, error: AtlasError): (r: Outcome)
    ensures r.Pass? <==> condition
    ensures r.Fail? ==> r.error == error
  {
    if condition then Pass else Fail(error)
  }
}

/** The operation a preprocessor is invoked for (`EntityMutations.EntityOperation`). */
module EntityMutations {
  datatype EntityOperation = CREATE | UPDATE | PARTIAL_UPDATE | DELETE | PURGE
}
