/** The wire shapes of error bodies (error/DTO.kt) and the constraint names of error/ErrorCodes.kt. */
module ErrorDto {
  import opened Wrappers
  import opened Values

  // Constraint names (error/ErrorCodes.kt). UNKNOWN_ENUM_VALUE is an alias of INVALID_ENUM_VALUE.
  const NOT_NULL := "NotNull"
  const NOT_MISSING := "NotMissing"
  const NOT_BLANK := "NotBlank"
  const INVALID_FORMAT := "InvalidFormat"
  const INVALID_DATETIME_FORMAT := "InvalidDateTime"
  const INVALID_DATE_RANGE := "InvalidDateRange"
  const INVALID_ENUM_VALUE := "UnknownValue"
  const UNKNOWN_ENUM_VALUE := INVALID_ENUM_VALUE
  const INVALID_JSON_TYPE := "InvalidTypeId"
  const INCORRECT_TYPE := "IncorrectType"

  const MESSAGE_KEY_PREFIX := "org.backstage.constraints."
  const MESSAGE_KEY_SUFFIX := ".message"
  const DEFAULT_MESSAGE_BUNDLE := "org/backstage/messages"

  /** `ValidationError.Constraint`: the violated constraint, with the message lookup data for clients. */
  datatype Constraint = Constraint(
    name: string,
    messageKey: string,
    messageBundle: string,
    messageParams: map<string, Value>)

  /** `ValidationError`: one rejected field, its offending value and, optionally, the violated constraint. */
  datatype ValidationError = ValidationError(property: string, value: Value, constraint: Option<Constraint>)

  /** `GeneralError`: an error that is not tied to a field. `code` is an `Any`. */
  datatype GeneralError = GeneralError(timestamp: LocalDateTime, code: Value, message: Option<string>)

  /** The codes of `ErrorCode`, each once: `UNKNOWN_ENUM_VALUE` is the same code as `INVALID_ENUM_VALUE`. */
  const ERROR_CODES: seq<string> := [
    NOT_NULL, NOT_MISSING, NOT_BLANK, INVALID_FORMAT, INVALID_DATETIME_FORMAT, INVALID_DATE_RANGE,
    INVALID_ENUM_VALUE, INVALID_JSON_TYPE, INCORRECT_TYPE]

  /** The default message key a constraint derives from its name; the name can be read back from the key. */
  function MessageKeyFor(name: string): (k: string)
    ensures |k| == |MESSAGE_KEY_PREFIX| + |name| + |MESSAGE_KEY_SUFFIX|
    ensures k[..|MESSAGE_KEY_PREFIX|] == MESSAGE_KEY_PREFIX
    ensures k[|MESSAGE_KEY_PREFIX|..|MESSAGE_KEY_PREFIX| + |name|] == name
    ensures k[|MESSAGE_KEY_PREFIX| + |name|..] == MESSAGE_KEY_SUFFIX
  {
    MESSAGE_KEY_PREFIX + name + MESSAGE_KEY_SUFFIX
  }

  /** `Constraint(name = name, messageParams = messageParams)`: the key and bundle take their defaults. */
  function NewConstraint(name: string, messageParams: map<string, Value>): (c: Constraint)
    ensures c.name == name && c.messageParams == messageParams
    ensures c.messageKey == MessageKeyFor(name) && c.messageBundle == DEFAULT_MESSAGE_BUNDLE
  {
    Constraint(name, MessageKeyFor(name), DEFAULT_MESSAGE_BUNDLE, messageParams)
  }

  /** The defaults of `Constraint`: a message key built from the name, the fixed bundle, no parameters. */
  lemma ConstraintDefaults(name: string)
    ensures NewConstraint(name, map[]).messageKey == "org.backstage.constraints." + name + ".message"
    ensures NewConstraint(name, map[]).messageBundle == "org/backstage/messages"
    ensures NewConstraint(name, map[]).messageParams == map[]
    ensures NewConstraint(name, map[]).name == name
  {
  }

  /**
   * The codes of `ErrorCode` are pairwise distinct, so each gets its own default message key; the alias
   * `UNKNOWN_ENUM_VALUE` shares the key of `INVALID_ENUM_VALUE`.
   */
  lemma ErrorCodeKeysDistinct()
    ensures forall i, j :: 0 <= i < j < |ERROR_CODES| ==>
              ERROR_CODES[i] != ERROR_CODES[j] && MessageKeyFor(ERROR_CODES[i]) != MessageKeyFor(ERROR_CODES[j])
    ensures MessageKeyFor(UNKNOWN_ENUM_VALUE) == MessageKeyFor(INVALID_ENUM_VALUE)
  {
    forall i, j | 0 <= i < j < |ERROR_CODES|
      ensures ERROR_CODES[i] != ERROR_CODES[j] && MessageKeyFor(ERROR_CODES[i]) != MessageKeyFor(ERROR_CODES[j])
    {
      var a, b := ERROR_CODES[i], ERROR_CODES[j];
      assert a != b by {
        assert ERROR_CODES == ["NotNull", "NotMissing", "NotBlank", "InvalidFormat", "InvalidDateTime",
                               "InvalidDateRange", "UnknownValue", "InvalidTypeId", "IncorrectType"];
      }
    }
  }

  /** The JSON object of a constraint: all four keys are always written. */
  function ConstraintJson(c: Constraint): (j: map<string, Value>)
    ensures j.Keys == {"name", "messageKey", "messageBundle", "messageParams"}
    ensures j["name"] == Str(c.name) && j["messageKey"] == Str(c.messageKey)
    ensures j["messageBundle"] == Str(c.messageBundle) && j["messageParams"] == Object(c.messageParams)
  {
    map["name" := Str(c.name), "messageKey" := Str(c.messageKey),
        "messageBundle" := Str(c.messageBundle), "messageParams" := Object(c.messageParams)]
  }

  /** The JSON object of a validation error: `property` and `value` always, `constraint` only when non-null. */
  function ValidationErrorJson(e: ValidationError): (j: map<string, Value>)
    ensures j.Keys == {"property", "value"} + (if e.constraint.Some? then {"constraint"} else {})
    ensures j["property"] == Str(e.property) && j["value"] == e.value
    ensures e.constraint.Some? ==> j["constraint"] == Object(ConstraintJson(e.constraint.value))
  {
    var base := map["property" := Str(e.property), "value" := e.value];
    match e.constraint
    case None => base
    case Some(c) => base["constraint" := Object(ConstraintJson(c))]
  }

  /** The JSON object of a general error: `timestamp` and `code` always, `message` only when non-null. */
  function GeneralErrorJson(e: GeneralError): (j: map<string, Value>)
    ensures j.Keys == {"timestamp", "code"} + (if e.message.Some? then {"message"} else {})
    ensures j["timestamp"] == DateTime(e.timestamp) && j["code"] == e.code
    ensures "message" in j ==> j["message"] == Str(e.message.value)
  {
    var base := map["timestamp" := DateTime(e.timestamp), "code" := e.code];
    match e.message
    case None => base
    case Some(m) => base["message" := Str(m)]
  }
}
