/**
 * The failures the error layer inspects and the responses it produces. The exception classes of
 * Jackson, Hibernate, Valiktor, JAX-RS and Quarkus become tags of `Kind`; what the error layer reads
 * from each (its path, target type, offending value, status, ready-made response) is the tag's payload.
 */
module Failures {
  import opened Wrappers
  import opened Values
  import opened ErrorDto

  // HTTP status codes used by the core (501 is section 6.6.2 of RFC 7231,
  // 422 is "Unprocessable Entity" of section 11.2 of RFC 4918).
  const BAD_REQUEST := 400
  const UNAUTHORIZED := 401
  const NOT_FOUND := 404
  const METHOD_NOT_ALLOWED := 405
  const UNPROCESSABLE_ENTITY := 422
  const INTERNAL_SERVER_ERROR := 500
  const NOT_IMPLEMENTED := 501

  /** One violated declarative constraint (a Valiktor `ConstraintViolation`), passed through unchanged. */
  datatype ConstraintViolation = ConstraintViolation(property: string, value: Value, constraint: string)

  /** The entity of a response. */
  datatype Body =
    | NoEntity
    | GeneralBody(error: GeneralError)
    | ValidationBody(errors: seq<ValidationError>)
    | ViolationBody(violations: seq<ConstraintViolation>)

  /** A JAX-RS response: its status, its entity, and whether a JSON `Content-Type` header was added. */
  datatype Response = Response(status: int, body: Body, jsonContentType: bool)

  /** One step of a Jackson path: a named field, or (when `fieldName` is null) a position in a list. */
  datatype Reference = Reference(fieldName: Option<string>, index: int)

  /** The declared type a value failed to bind to: its qualified name and, for an enum, its constants. */
  datatype TargetType = TargetType(name: string, isEnum: bool, enumConstants: seq<Value>)

  /** What every Jackson `MismatchedInputException` carries: where the input failed and what it was bound to. */
  datatype MismatchedInputInfo = MismatchedInputInfo(path: seq<Reference>, targetType: TargetType)

  /** The class of a failure, with the data the error layer reads from that class. */
  datatype Kind =
    | IllegalArgument
    | EntityNotFound
    | MissingKotlinParameter(input: MismatchedInputInfo)
    | Http(status: int)
    | InvalidFormat(input: MismatchedInputInfo, value: Value)
    | InvalidTypeId(input: MismatchedInputInfo, typeId: Option<string>)
    | MismatchedInput(input: MismatchedInputInfo)
    | HibernateConstraintViolation
    | NotImplemented
    | NotAllowed(response: Response)
    | ValidationConstraintViolation(violations: seq<ConstraintViolation>)
    | DateTimeParse(parsedString: string)
    | Unauthorized
    | Other(className: string)

  /** A `Throwable`: its class, its message and its cause. Cause chains are finite. */
  datatype Failure = Failure(kind: Kind, message: Option<string>, cause: Option<Failure>)
}
