/**
 * The global exception mapper (error/ExceptionMapper.kt): it walks a failure and its cause chain,
 * lets the first failure of a recognised class decide the response, and otherwise answers 500.
 */
module ExceptionMapper {
  import opened Wrappers
  import opened Values
  import opened ErrorDto
  import opened Failures

  const UNKNOWN_ERROR_MESSAGE := "An unknown and unhandled error has occurred"
  const NOT_IMPLEMENTED_MESSAGE := "Method not implemented"

  /** The class of the exception the mapper raises when it is handed no failure at all. */
  const UNKNOWN_FAILURE := Failure(Other("java.lang.Exception"), Some(UNKNOWN_ERROR_MESSAGE), None)

  /** The logger call a branch makes: `recordError` or `recordWarning`, with the failure's message. */
  datatype LogLevel = ErrorLevel | WarningLevel
  datatype LogRecord = LogRecord(level: LogLevel, message: Option<string>)

  /** A response together with the log line emitted while building it. */
  datatype Handled = Handled(response: Response, log: Option<LogRecord>)

  /** The `is` tests of the dispatching `when`, one per recognised exception class. */
  datatype Branch =
    | IsIllegalArgument
    | IsEntityNotFound
    | IsMissingKotlinParameter
    | IsHttpException
    | IsInvalidFormat
    | IsInvalidTypeId
    | IsMismatchedInput
    | IsHibernateConstraintViolation
    | IsNotImplemented
    | IsNotAllowed
    | IsValidationConstraintViolation

  /** The order in which the `when` tries the branches. */
  const DispatchOrder: seq<Branch> := [
    IsIllegalArgument, IsEntityNotFound, IsMissingKotlinParameter, IsHttpException, IsInvalidFormat,
    IsInvalidTypeId, IsMismatchedInput, IsHibernateConstraintViolation, IsNotImplemented, IsNotAllowed,
    IsValidationConstraintViolation]

  /**
   * Kotlin's `is` for these classes. Jackson's `MissingKotlinParameterException`,
   * `InvalidFormatException` and `InvalidTypeIdException` all extend `MismatchedInputException`.
   */
  predicate IsA(k: Kind, b: Branch) {
    match b
    case IsIllegalArgument => k.IllegalArgument?
    case IsEntityNotFound => k.EntityNotFound?
    case IsMissingKotlinParameter => k.MissingKotlinParameter?
    case IsHttpException => k.Http?
    case IsInvalidFormat => k.InvalidFormat?
    case IsInvalidTypeId => k.InvalidTypeId?
    case IsMismatchedInput => k.MismatchedInput? || k.MissingKotlinParameter? || k.InvalidFormat? || k.InvalidTypeId?
    case IsHibernateConstraintViolation => k.HibernateConstraintViolation?
    case IsNotImplemented => k.NotImplemented?
    case IsNotAllowed => k.NotAllowed?
    case IsValidationConstraintViolation => k.ValidationConstraintViolation?
  }

  /** The branch the `when` takes for a failure of class `k`, or `None` when it falls to `else`. */
  function Classify(k: Kind): (b: Option<Branch>)
    ensures b.Some? ==> IsA(k, b.value)
  {
    if IsA(k, IsIllegalArgument) then Some(IsIllegalArgument)
    else if IsA(k, IsEntityNotFound) then Some(IsEntityNotFound)
    else if IsA(k, IsMissingKotlinParameter) then Some(IsMissingKotlinParameter)
    else if IsA(k, IsHttpException) then Some(IsHttpException)
    else if IsA(k, IsInvalidFormat) then Some(IsInvalidFormat)
    else if IsA(k, IsInvalidTypeId) then Some(IsInvalidTypeId)
    else if IsA(k, IsMismatchedInput) then Some(IsMismatchedInput)
    else if IsA(k, IsHibernateConstraintViolation) then Some(IsHibernateConstraintViolation)
    else if IsA(k, IsNotImplemented) then Some(IsNotImplemented)
    else if IsA(k, IsNotAllowed) then Some(IsNotAllowed)
    else if IsA(k, IsValidationConstraintViolation) then Some(IsValidationConstraintViolation)
    else None
  }

  /** The branch taken is the first one, in `DispatchOrder`, whose `is` test holds; none is taken iff none holds. */
  lemma ClassifyIsFirstMatch(k: Kind, i: nat)
    requires i < |DispatchOrder|
    ensures Classify(k) == Some(DispatchOrder[i]) <==>
              IsA(k, DispatchOrder[i]) && forall j :: 0 <= j < i ==> !IsA(k, DispatchOrder[j])
  {
    DispatchOrderEntries();
  }

  /** No branch is taken iff no `is` test holds. */
  lemma ClassifyNoneIffNoMatch(k: Kind)
    ensures Classify(k).None? <==> forall j :: 0 <= j < |DispatchOrder| ==> !IsA(k, DispatchOrder[j])
  {
    DispatchOrderEntries();
  }

  /** The entries of `DispatchOrder`, one by one. */
  lemma DispatchOrderEntries()
    ensures DispatchOrder[0] == IsIllegalArgument && DispatchOrder[1] == IsEntityNotFound
    ensures DispatchOrder[2] == IsMissingKotlinParameter && DispatchOrder[3] == IsHttpException
    ensures DispatchOrder[4] == IsInvalidFormat && DispatchOrder[5] == IsInvalidTypeId
    ensures DispatchOrder[6] == IsMismatchedInput && DispatchOrder[7] == IsHibernateConstraintViolation
    ensures DispatchOrder[8] == IsNotImplemented && DispatchOrder[9] == IsNotAllowed
    ensures DispatchOrder[10] == IsValidationConstraintViolation
  {
  }

  /** The Jackson subclasses are caught by their own branches, never by the `MismatchedInputException` one. */
  lemma SubtypesWinOverMismatchedInput(k: Kind)
    requires k.MissingKotlinParameter? || k.InvalidFormat? || k.InvalidTypeId?
    ensures IsA(k, IsMismatchedInput)
    ensures Classify(k).Some? && Classify(k).value != IsMismatchedInput
  {
  }

  // ---------------------------------------------------------------------------------------------
  // Response builders

  /** `Throwable.buildGeneralErrorResponse(status)`. */
  function BuildGeneralErrorResponse(f: Failure, status: int, now: LocalDateTime): (r: Response)
    ensures r.status == status && r.jsonContentType
    ensures r.body.GeneralBody? && r.body.error.code == Int(status) && r.body.error.message == f.message
    ensures r.body.error.timestamp == now
  {
    Response(status, GeneralBody(GeneralError(now, Int(status), f.message)), true)
  }

  /** `HttpException.buildGeneralErrorResponse()`: the exception's own status. */
  function BuildHttpErrorResponse(f: Failure, now: LocalDateTime): (r: Response)
    requires f.kind.Http?
    ensures r.status == f.kind.status && r.jsonContentType
    ensures r.body.GeneralBody? && r.body.error.code == Int(f.kind.status) && r.body.error.message == f.message
  {
    BuildGeneralErrorResponse(f, f.kind.status, now)
  }

  /** `StatusType.buildResponse(message)`. */
  function BuildResponse(status: int, message: Option<string>, now: LocalDateTime): (r: Response)
    ensures r.status == status && r.jsonContentType
    ensures r.body.GeneralBody? && r.body.error.code == Int(status) && r.body.error.message == message
  {
    Response(status, GeneralBody(GeneralError(now, Int(status), message)), true)
  }

  /**
   * `UnprocessableEntityStatus.buildValidationErrorResponse(field, value, messageKey, messageParams)`:
   * a 422 with exactly one validation error; there is a constraint iff there is a message key, and its
   * parameters are the given ones with `"value"` set to the offending value.
   */
  function BuildValidationErrorResponse(
    field: string, value: Value, messageKey: Option<string>, messageParams: map<string, Value>): (r: Response)
    ensures r.status == UNPROCESSABLE_ENTITY && r.jsonContentType
    ensures r.body.ValidationBody? && |r.body.errors| == 1
    ensures r.body.errors[0].property == field && r.body.errors[0].value == value
    ensures r.body.errors[0].constraint.None? <==> messageKey.None?
    ensures messageKey.Some? ==>
              r.body.errors[0].constraint == Some(NewConstraint(messageKey.value, messageParams["value" := value]))
  {
    var constraint := match messageKey
      case None => None
      case Some(key) => Some(NewConstraint(key, messageParams["value" := value]));
    Response(UNPROCESSABLE_ENTITY, ValidationBody([ValidationError(field, value, constraint)]), true)
  }

  /** The constraint parameters always map `"value"` to the offending value and keep every other given key. */
  lemma ValidationParamsCarryValue(
    field: string, value: Value, key: string, messageParams: map<string, Value>)
    ensures var c := BuildValidationErrorResponse(field, value, Some(key), messageParams).body.errors[0].constraint.value;
            c.messageParams.Keys == messageParams.Keys + {"value"} &&
            c.messageParams["value"] == value &&
            forall k :: k in messageParams && k != "value" ==> c.messageParams[k] == messageParams[k]
  {
  }

  // ---------------------------------------------------------------------------------------------
  // Field paths

  /** One step of a field path: `[index]` for a list position, `.name` for a named field. */
  function PathPart(ref: Reference): string {
    match ref.fieldName
    case None => "[" + IntToString(ref.index) + "]"
    case Some(name) => "." + name
  }

  /** The steps of a path joined with no separator. */
  function JoinPath(path: seq<Reference>): (j: string)
    ensures j == "" <==> path == []
  {
    if path == [] then "" else PathPart(path[0]) + JoinPath(path[1..])
  }

  /** Kotlin's `removePrefix`: drops `prefix` once if the string starts with it. */
  function RemovePrefix(s: string, prefix: string): (r: string)
    ensures prefix <= s ==> prefix + r == s
    ensures !(prefix <= s) ==> r == s
  {
    if prefix <= s then s[|prefix|..] else s
  }

  /** `List<Reference>.buildPath()`. */
  function BuildPath(path: seq<Reference>): (p: string)
  {
    RemovePrefix(JoinPath(path), ".")
  }

  /** Joining distributes over concatenation of paths: the steps appear in order. */
  lemma {:induction false} JoinPathAppend(p: seq<Reference>, q: seq<Reference>)
    ensures JoinPath(p + q) == JoinPath(p) + JoinPath(q)
    decreases |p|
  {
    if p == [] {
      assert p + q == q;
    } else {
      assert (p + q)[1..] == p[1..] + q;
      JoinPathAppend(p[1..], q);
    }
  }

  /** Removing a leading `.` from a string that has one leaves the rest. */
  lemma RemoveLeadingDot(name: string, rest: string)
    ensures RemovePrefix("." + name + rest, ".") == name + rest
  {
    var s := "." + name + rest;
    assert "." <= s;
    assert s[1..] == name + rest;
  }

  /**
   * The built path is the joined steps with exactly one leading `.` removed, and only when the path
   * starts with a named field; an empty path gives the empty string.
   */
  lemma BuildPathShape(path: seq<Reference>)
    ensures path == [] ==> BuildPath(path) == ""
    ensures path != [] && path[0].fieldName.Some? ==>
              BuildPath(path) == path[0].fieldName.value + JoinPath(path[1..])
    ensures path != [] && path[0].fieldName.None? ==> BuildPath(path) == JoinPath(path)
  {
    if path != [] {
      match path[0].fieldName
      case None =>
        assert JoinPath(path)[0] == '[';
      case Some(name) =>
        RemoveLeadingDot(name, JoinPath(path[1..]));
    }
  }

  /** Joining a path that starts with `ref` puts `ref`'s text first. */
  lemma JoinPathCons(ref: Reference, rest: seq<Reference>)
    ensures JoinPath([ref] + rest) == PathPart(ref) + JoinPath(rest)
  {
    assert ([ref] + rest)[1..] == rest;
  }

  /** A one-step path joins to that step's text. */
  lemma JoinPathSingle(ref: Reference)
    ensures JoinPath([ref]) == PathPart(ref)
  {
    JoinPathCons(ref, []);
    assert [ref] + [] == [ref];
    assert PathPart(ref) + "" == PathPart(ref);
  }

  /** Extending a non-empty path appends exactly the new step's text to the built path. */
  lemma BuildPathExtend(path: seq<Reference>, ref: Reference)
    requires path != []
    ensures BuildPath(path + [ref]) == BuildPath(path) + PathPart(ref)
  {
    var q := path + [ref];
    var rest := path[1..];
    forall name: string
      ensures name + (JoinPath(rest) + PathPart(ref)) == (name + JoinPath(rest)) + PathPart(ref)
    {
    }
    assert q[0] == path[0];
    assert q[1..] == rest + [ref];
    JoinPathSingle(ref);
    BuildPathShape(path);
    BuildPathShape(q);
    match path[0].fieldName
    case None =>
      JoinPathAppend(path, [ref]);
    case Some(name) =>
      JoinPathAppend(rest, [ref]);
  }

  /** The worked example: `field`, `1`, `second`, `third`, `6` gives `field[1].second.third[6]`. */
  lemma BuildPathExample()
    ensures BuildPath([Reference(Some("field"), -1), Reference(None, 1), Reference(Some("second"), -1),
                       Reference(Some("third"), -1), Reference(None, 6)]) == "field[1].second.third[6]"
  {
    var ra, ri, rb, rc, rj := Reference(Some("field"), -1), Reference(None, 1), Reference(Some("second"), -1),
                              Reference(Some("third"), -1), Reference(None, 6);
    assert IntToString(1) == "1" && IntToString(6) == "6";
    BuildPathShape([ra]);
    assert [ra][1..] == [];
    assert BuildPath([ra]) == "field";
    BuildPathExtend([ra], ri);
    assert [ra] + [ri] == [ra, ri];
    assert BuildPath([ra, ri]) == "field[1]";
    BuildPathExtend([ra, ri], rb);
    assert [ra, ri] + [rb] == [ra, ri, rb];
    assert BuildPath([ra, ri, rb]) == "field[1].second";
    BuildPathExtend([ra, ri, rb], rc);
    assert [ra, ri, rb] + [rc] == [ra, ri, rb, rc];
    assert BuildPath([ra, ri, rb, rc]) == "field[1].second.third";
    BuildPathExtend([ra, ri, rb, rc], rj);
    assert [ra, ri, rb, rc] + [rj] == [ra, ri, rb, rc, rj];
  }

  /** Kotlin's `lastIndexOf(delimiter)`: the last position holding `delimiter`, or -1. */
  function LastIndexOf(s: string, delimiter: char): (i: int)
    ensures -1 <= i < |s|
    decreases |s|
  {
    if s == [] then -1
    else if s[|s| - 1] == delimiter then |s| - 1
    else LastIndexOf(s[..|s| - 1], delimiter)
  }

  /** The position found holds the delimiter and nothing after it does; -1 means there is none at all. */
  lemma {:induction false} LastIndexOfIsLast(s: string, delimiter: char)
    ensures var i := LastIndexOf(s, delimiter);
            (i >= 0 ==> s[i] == delimiter) &&
            (forall j :: i < j < |s| ==> s[j] != delimiter) &&
            (i == -1 <==> delimiter !in s)
    decreases |s|
  {
    if s != [] && s[|s| - 1] != delimiter {
      var init := s[..|s| - 1];
      LastIndexOfIsLast(init, delimiter);
      assert forall j :: 0 <= j < |init| ==> init[j] == s[j];
      assert s == init + [s[|s| - 1]];
    }
  }

  /** Kotlin's `substringAfterLast(delimiter)`: the text after the last delimiter, or all of it if there is none. */
  function SubstringAfterLast(s: string, delimiter: char): (r: string)
    ensures |r| <= |s| && s[|s| - |r|..] == r
  {
    var i := LastIndexOf(s, delimiter);
    if i == -1 then s else s[i + 1..]
  }

  /**
   * The result never holds the delimiter; it is the whole string when there is no delimiter, and otherwise
   * the suffix that directly follows a delimiter.
   */
  lemma SubstringAfterLastSpec(s: string, delimiter: char)
    ensures var r := SubstringAfterLast(s, delimiter);
            delimiter !in r &&
            (delimiter !in s ==> r == s) &&
            (delimiter in s ==> |r| < |s| && s[|s| - |r| - 1] == delimiter && s[|s| - |r|..] == r)
  {
    LastIndexOfIsLast(s, delimiter);
    var i := LastIndexOf(s, delimiter);
    if i != -1 {
      var r := s[i + 1..];
      assert forall k :: 0 <= k < |r| ==> r[k] == s[i + 1 + k];
    }
  }

  lemma SimpleNameExample()
    ensures SubstringAfterLast("org.a.Foo", '.') == "Foo"
    ensures SubstringAfterLast("Foo", '.') == "Foo"
  {
    assert "org.a.Foo"[..8] == "org.a.Fo";
    assert "org.a.Fo"[..7] == "org.a.F";
    assert "org.a.F"[..6] == "org.a.";
    assert LastIndexOf("org.a.Foo", '.') == 5;
    assert "org.a.Foo"[6..] == "Foo";
    assert "Foo"[..2] == "Fo" && "Fo"[..1] == "F" && "F"[..0] == "";
    assert LastIndexOf("Foo", '.') == -1;
  }

  // ---------------------------------------------------------------------------------------------
  // The branches

  /** `handleIllegalArgumentException`: 400 with the failure's message, logged as an error. */
  function HandleIllegalArgumentException(f: Failure, now: LocalDateTime): (h: Handled)
    ensures h.response == BuildGeneralErrorResponse(f, BAD_REQUEST, now)
    ensures h.log == Some(LogRecord(ErrorLevel, f.message))
  {
    Handled(BuildGeneralErrorResponse(f, BAD_REQUEST, now), Some(LogRecord(ErrorLevel, f.message)))
  }

  /** `handleEntityNotFound`: 404 with the failure's message, logged as an error. */
  function HandleEntityNotFound(f: Failure, now: LocalDateTime): (h: Handled)
    ensures h.response == BuildGeneralErrorResponse(f, NOT_FOUND, now)
    ensures h.log == Some(LogRecord(ErrorLevel, f.message))
  {
    Handled(BuildGeneralErrorResponse(f, NOT_FOUND, now), Some(LogRecord(ErrorLevel, f.message)))
  }

  /** `handleMissingParameter`: a 422 `NotMissing` error on the failure's path with a null value. */
  function HandleMissingParameter(f: Failure): (h: Handled)
    requires f.kind.MissingKotlinParameter?
    ensures h.response == BuildValidationErrorResponse(BuildPath(f.kind.input.path), Null, Some(NOT_MISSING), map[])
    ensures h.log.None?
  {
    Handled(BuildValidationErrorResponse(BuildPath(f.kind.input.path), Null, Some(NOT_MISSING), map[]), None)
  }

  /** `handleHttpException`: the exception's own status and message, logged as an error. */
  function HandleHttpException(f: Failure, now: LocalDateTime): (h: Handled)
    requires f.kind.Http?
    ensures h.response.status == f.kind.status && h.response.body.GeneralBody?
    ensures h.response.body.error.message == f.message && h.response.jsonContentType
    ensures h.log == Some(LogRecord(ErrorLevel, f.message))
  {
    Handled(BuildHttpErrorResponse(f, now), Some(LogRecord(ErrorLevel, f.message)))
  }

  /** Whether an `InvalidFormatException` was caused by a `DateTimeParseException`. */
  predicate CausedByDateTimeParse(f: Failure) {
    f.cause.Some? && f.cause.value.kind.DateTimeParse?
  }

  /**
   * `handleInvalidFormat`: a date/time parse cause wins (`InvalidDateTime` with the parsed text), then an
   * enum target (`UnknownValue` listing the allowed constants), then plain `InvalidFormat` with the raw value.
   */
  function HandleInvalidFormat(f: Failure): (h: Handled)
    requires f.kind.InvalidFormat?
    ensures h.log.None?
    ensures var field := BuildPath(f.kind.input.path);
            var target := f.kind.input.targetType;
            h.response ==
              if CausedByDateTimeParse(f) then
                BuildValidationErrorResponse(field, Str(f.cause.value.kind.parsedString), Some(INVALID_DATETIME_FORMAT), map[])
              else if target.isEnum then
                BuildValidationErrorResponse(field, f.kind.value, Some(INVALID_ENUM_VALUE),
                                             map["allowedValue" := Array(target.enumConstants)])
              else
                BuildValidationErrorResponse(field, f.kind.value, Some(INVALID_FORMAT), map[])
  {
    var field := BuildPath(f.kind.input.path);
    if CausedByDateTimeParse(f) then
      Handled(HandleDateTimeParseException(f.cause.value, field), None)
    else if f.kind.input.targetType.isEnum then
      Handled(HandleInvalidEnumValue(f, field), None)
    else
      Handled(BuildValidationErrorResponse(field, f.kind.value, Some(INVALID_FORMAT), map[]), None)
  }

  /** `handleInvalidEnumValue`. */
  function HandleInvalidEnumValue(f: Failure, field: string): (r: Response)
    requires f.kind.InvalidFormat?
    ensures r.status == UNPROCESSABLE_ENTITY && r.body.ValidationBody? && |r.body.errors| == 1
    ensures r.body.errors[0].property == field && r.body.errors[0].value == f.kind.value
    ensures r.body.errors[0].constraint.Some? && r.body.errors[0].constraint.value.name == INVALID_ENUM_VALUE
    ensures "allowedValue" in r.body.errors[0].constraint.value.messageParams
    ensures r.body.errors[0].constraint.value.messageParams["allowedValue"] == Array(f.kind.input.targetType.enumConstants)
  {
    BuildValidationErrorResponse(field, f.kind.value, Some(INVALID_ENUM_VALUE),
                                 map["allowedValue" := Array(f.kind.input.targetType.enumConstants)])
  }

  /** `handleDateTimeParseException`: the offending value is the text the parser was given. */
  function HandleDateTimeParseException(cause: Failure, field: string): (r: Response)
    requires cause.kind.DateTimeParse?
    ensures r.status == UNPROCESSABLE_ENTITY && r.body.ValidationBody? && |r.body.errors| == 1
    ensures r.body.errors[0].property == field && r.body.errors[0].value == Str(cause.kind.parsedString)
    ensures r.body.errors[0].constraint.Some? && r.body.errors[0].constraint.value.name == INVALID_DATETIME_FORMAT
  {
    BuildValidationErrorResponse(field, Str(cause.kind.parsedString), Some(INVALID_DATETIME_FORMAT), map[])
  }

  /** `handleInvalidJsonType`: `InvalidTypeId` with the unrecognised type id as the value. */
  function HandleInvalidJsonType(f: Failure): (h: Handled)
    requires f.kind.InvalidTypeId?
    ensures h.response == BuildValidationErrorResponse(BuildPath(f.kind.input.path), OfNullableString(f.kind.typeId),
                                                        Some(INVALID_JSON_TYPE), map[])
    ensures h.log.None?
  {
    Handled(BuildValidationErrorResponse(BuildPath(f.kind.input.path), OfNullableString(f.kind.typeId),
                                         Some(INVALID_JSON_TYPE), map[]), None)
  }

  /** `handleMismatchedInput`: `IncorrectType`, null value, `expectedType` = the target's simple name. */
  function HandleMismatchedInput(f: Failure): (h: Handled)
    requires f.kind.MismatchedInput? || f.kind.MissingKotlinParameter? || f.kind.InvalidFormat? || f.kind.InvalidTypeId?
    ensures var simple := SubstringAfterLast(f.kind.input.targetType.name, '.');
            h.response == BuildValidationErrorResponse(BuildPath(f.kind.input.path), Null, Some(INCORRECT_TYPE),
                                                       map["expectedType" := Str(simple)])
    ensures h.log.None?
  {
    Handled(BuildValidationErrorResponse(BuildPath(f.kind.input.path), Null, Some(INCORRECT_TYPE),
                                         map["expectedType" := Str(SubstringAfterLast(f.kind.input.targetType.name, '.'))]),
            None)
  }

  /** The `expectedType` parameter is the target's simple name: a `.`-free suffix of its qualified name. */
  lemma ExpectedTypeIsSimpleName(f: Failure)
    requires f.kind.MismatchedInput?
    ensures var name := f.kind.input.targetType.name;
            var params := HandleMismatchedInput(f).response.body.errors[0].constraint.value.messageParams;
            "expectedType" in params && params["expectedType"].Str? &&
            var simple := params["expectedType"].s;
            '.' !in simple && |simple| <= |name| && name[|name| - |simple|..] == simple
  {
    SubstringAfterLastSpec(f.kind.input.targetType.name, '.');
  }

  /** `handleHibernateConstraintViolation`: a 422 general error with the store's message, logged as a warning. */
  function HandleHibernateConstraintViolation(f: Failure, now: LocalDateTime): (h: Handled)
    ensures h.response == BuildGeneralErrorResponse(f, UNPROCESSABLE_ENTITY, now)
    ensures h.log == Some(LogRecord(WarningLevel, f.message))
  {
    Handled(BuildGeneralErrorResponse(f, UNPROCESSABLE_ENTITY, now), Some(LogRecord(WarningLevel, f.message)))
  }

  /** `handleNotImplemented`: 501 with the fixed message; the failure itself is not read. */
  function HandleNotImplemented(now: LocalDateTime): (h: Handled)
    ensures h.response == BuildResponse(NOT_IMPLEMENTED, Some(NOT_IMPLEMENTED_MESSAGE), now)
    ensures h.log.None?
  {
    Handled(BuildResponse(NOT_IMPLEMENTED, Some(NOT_IMPLEMENTED_MESSAGE), now), None)
  }

  /** `handleNotAllowed`: the exception's own response, unchanged (no header is added). */
  function HandleNotAllowed(f: Failure): (h: Handled)
    requires f.kind.NotAllowed?
    ensures h.response == f.kind.response && h.log.None?
  {
    Handled(f.kind.response, None)
  }

  /** `handleValidationConstraintViolation`: 422 with the violations as the entity and no added header. */
  function HandleValidationConstraintViolation(f: Failure): (h: Handled)
    requires f.kind.ValidationConstraintViolation?
    ensures h.response == Response(UNPROCESSABLE_ENTITY, ViolationBody(f.kind.violations), false)
    ensures h.log.None?
  {
    Handled(Response(UNPROCESSABLE_ENTITY, ViolationBody(f.kind.violations), false), None)
  }

  /** `unhandledException`: 500 with the failure's message, logged as an error. */
  function UnhandledException(f: Failure, now: LocalDateTime): (h: Handled)
    ensures h.response == BuildGeneralErrorResponse(f, INTERNAL_SERVER_ERROR, now)
    ensures h.log == Some(LogRecord(ErrorLevel, f.message))
  {
    Handled(BuildGeneralErrorResponse(f, INTERNAL_SERVER_ERROR, now), Some(LogRecord(ErrorLevel, f.message)))
  }

  /** The response of the branch a recognised failure takes. */
  function Dispatch(f: Failure, now: LocalDateTime): (h: Handled)
    requires Classify(f.kind).Some?
    ensures Classify(f.kind).value !in {IsNotAllowed, IsValidationConstraintViolation} ==> h.response.jsonContentType
  {
    match Classify(f.kind).value
    case IsIllegalArgument => HandleIllegalArgumentException(f, now)
    case IsEntityNotFound => HandleEntityNotFound(f, now)
    case IsMissingKotlinParameter => HandleMissingParameter(f)
    case IsHttpException => HandleHttpException(f, now)
    case IsInvalidFormat => HandleInvalidFormat(f)
    case IsInvalidTypeId => HandleInvalidJsonType(f)
    case IsMismatchedInput => HandleMismatchedInput(f)
    case IsHibernateConstraintViolation => HandleHibernateConstraintViolation(f, now)
    case IsNotImplemented => HandleNotImplemented(now)
    case IsNotAllowed => HandleNotAllowed(f)
    case IsValidationConstraintViolation => HandleValidationConstraintViolation(f)
  }

  // ---------------------------------------------------------------------------------------------
  // Walking the cause chain

  /**
   * `handleForException(exception, parent)`: the `is` branches first; then `null` or a failure equal to
   * its parent ends the walk with the parent (or a fresh "unknown" exception when there is none);
   * anything else defers to its cause.
   */
  function HandleForException(e: Option<Failure>, parent: Option<Failure>, now: LocalDateTime): (h: Handled)
    ensures e.Some? && Classify(e.value.kind).Some? ==> h == Dispatch(e.value, now)
    ensures e.None? ==> h == UnhandledException(if parent.Some? then parent.value else UNKNOWN_FAILURE, now)
    decreases e
  {
    if e.Some? && Classify(e.value.kind).Some? then Dispatch(e.value, now)
    else if e.None? || e == parent then
      UnhandledException(if parent.Some? then parent.value else UNKNOWN_FAILURE, now)
    else HandleForException(e.value.cause, e, now)
  }

  /** `ExceptionResponseFactory.handleThrownException(exception)`. */
  function HandleThrownException(e: Option<Failure>, now: LocalDateTime): (h: Handled)
    ensures e.None? ==> h == UnhandledException(UNKNOWN_FAILURE, now)
    ensures e.Some? && Classify(e.value.kind).Some? ==> h == Dispatch(e.value, now)
  {
    HandleForException(e, None, now)
  }

  /** The failure and its causes, outermost first. */
  function CauseChain(f: Failure): (c: seq<Failure>)
    ensures 1 <= |c| && c[0] == f
    ensures c[|c| - 1].cause.None?
    ensures forall i :: 0 <= i < |c| - 1 ==> c[i].cause == Some(c[i + 1])
    decreases f
  {
    match f.cause
    case None => [f]
    case Some(g) => [f] + CauseChain(g)
  }

  /** The position of the first recognised failure in a chain, or `|c|` when there is none. */
  function FirstRecognised(c: seq<Failure>): (i: nat)
    ensures i <= |c|
    ensures i < |c| ==> Classify(c[i].kind).Some?
    ensures forall j :: 0 <= j < i ==> Classify(c[j].kind).None?
  {
    if c == [] then 0
    else if Classify(c[0].kind).Some? then 0
    else 1 + FirstRecognised(c[1..])
  }

  /** The walk from some point of a chain: the first recognised failure from there decides, else the last one. */
  lemma {:induction false} WalkFromHere(f: Failure, parent: Option<Failure>, now: LocalDateTime)
    requires parent.None? || parent.value.cause == Some(f)
    ensures var c := CauseChain(f);
            FirstRecognised(c) < |c| ==> HandleForException(Some(f), parent, now) == Dispatch(c[FirstRecognised(c)], now)
    ensures var c := CauseChain(f);
            FirstRecognised(c) == |c| ==> HandleForException(Some(f), parent, now) == UnhandledException(c[|c| - 1], now)
    decreases f
  {
    var c := CauseChain(f);
    if Classify(f.kind).None? {
      assert Some(f) != parent;
      match f.cause
      case None =>
        assert c == [f];
      case Some(g) =>
        WalkStep(f, g, parent, now);
        WalkFromHere(g, Some(f), now);
        var cg := CauseChain(g);
        assert c[1..] == cg;
        SkipUnrecognised(c);
        var i := FirstRecognised(cg);
        if i < |cg| {
          assert c[1 + i] == cg[i];
        } else {
          assert c[|c| - 1] == cg[|cg| - 1];
        }
    }
  }

  /** One step of the walk: an unrecognised failure that is not its parent hands over to its cause. */
  lemma WalkStep(f: Failure, g: Failure, parent: Option<Failure>, now: LocalDateTime)
    requires Classify(f.kind).None? && f.cause == Some(g) && Some(f) != parent
    ensures HandleForException(Some(f), parent, now) == HandleForException(Some(g), Some(f), now)
  {
  }

  /** An unrecognised head adds one to the position of the first recognised failure. */
  lemma SkipUnrecognised(c: seq<Failure>)
    requires c != [] && Classify(c[0].kind).None?
    ensures FirstRecognised(c) == 1 + FirstRecognised(c[1..])
  {
  }

  /**
   * The whole walk: the first failure in the cause chain whose class is recognised decides the response;
   * when there is none, the result is a 500 built from the innermost failure of the chain.
   */
  lemma HandleThrownFollowsChain(f: Failure, now: LocalDateTime)
    ensures var c := CauseChain(f);
            var i := FirstRecognised(c);
            HandleThrownException(Some(f), now) ==
              if i < |c| then Dispatch(c[i], now) else UnhandledException(c[|c| - 1], now)
  {
    WalkFromHere(f, None, now);
  }

  /** An unrecognised failure defers to its cause: a recognised cause decides the response. */
  lemma UnrecognisedDefersToCause(f: Failure, now: LocalDateTime)
    requires Classify(f.kind).None? && f.cause.Some? && Classify(f.cause.value.kind).Some?
    ensures HandleThrownException(Some(f), now) == Dispatch(f.cause.value, now)
  {
    HandleThrownFollowsChain(f, now);
    var c := CauseChain(f);
    assert c[1] == f.cause.value;
  }

  /** A chain none of whose failures is recognised has no first recognised position. */
  lemma {:induction false} NoneRecognised(c: seq<Failure>)
    requires forall j :: 0 <= j < |c| ==> Classify(c[j].kind).None?
    ensures FirstRecognised(c) == |c|
  {
    if c != [] {
      NoneRecognised(c[1..]);
    }
  }

  /** With nothing recognised, the response is a 500 carrying the innermost failure's message. */
  lemma ExhaustedChainIs500(f: Failure, now: LocalDateTime)
    requires forall g :: g in CauseChain(f) ==> Classify(g.kind).None?
    ensures var h := HandleThrownException(Some(f), now);
            var last := CauseChain(f)[|CauseChain(f)| - 1];
            h.response.status == INTERNAL_SERVER_ERROR && h.response.jsonContentType &&
            h.response.body == GeneralBody(GeneralError(now, Int(INTERNAL_SERVER_ERROR), last.message)) &&
            h.log == Some(LogRecord(ErrorLevel, last.message))
  {
    HandleThrownFollowsChain(f, now);
    var c := CauseChain(f);
    forall j | 0 <= j < |c| ensures Classify(c[j].kind).None? {
      assert c[j] in c;
    }
    NoneRecognised(c);
  }

  /** No failure at all: 500 with the fixed "unknown and unhandled" message. */
  lemma NullFailureIs500(now: LocalDateTime)
    ensures HandleThrownException(None, now).response ==
              Response(INTERNAL_SERVER_ERROR,
                       GeneralBody(GeneralError(now, Int(INTERNAL_SERVER_ERROR), Some(UNKNOWN_ERROR_MESSAGE))), true)
  {
  }

  /** A bare failure of an unrecognised class answers 500 with its own message (`Throwable("boom")`). */
  lemma BareFailureIs500(className: string, message: Option<string>, now: LocalDateTime)
    ensures HandleThrownException(Some(Failure(Other(className), message, None)), now).response ==
              Response(INTERNAL_SERVER_ERROR, GeneralBody(GeneralError(now, Int(INTERNAL_SERVER_ERROR), message)), true)
  {
    var f := Failure(Other(className), message, None);
    assert HandleForException(None, Some(f), now) == UnhandledException(f, now);
  }

  /** The fixed status and message per class when the outermost failure is recognised. */
  lemma FixedOutcomes(f: Failure, now: LocalDateTime)
    ensures var r := HandleThrownException(Some(f), now).response;
            (f.kind.IllegalArgument? ==> r.status == BAD_REQUEST && r.body.error.message == f.message) &&
            (f.kind.EntityNotFound? ==> r.status == NOT_FOUND && r.body.error.message == f.message) &&
            (f.kind.Http? ==> r.status == f.kind.status && r.body.error.message == f.message) &&
            (f.kind.HibernateConstraintViolation? ==>
               r.status == UNPROCESSABLE_ENTITY && r.body.GeneralBody? && r.body.error.message == f.message) &&
            (f.kind.NotImplemented? ==>
               r.status == NOT_IMPLEMENTED && r.body.error.message == Some(NOT_IMPLEMENTED_MESSAGE)) &&
            (f.kind.NotAllowed? ==> r == f.kind.response)
  {
  }

  /** The single validation error per binding failure when the outermost failure is recognised. */
  lemma BindingOutcomes(f: Failure, now: LocalDateTime)
    ensures var r := HandleThrownException(Some(f), now).response;
            (f.kind.MissingKotlinParameter? ==>
               r.status == UNPROCESSABLE_ENTITY && r.body.errors[0].value == Null &&
               r.body.errors[0].constraint.value.name == NOT_MISSING) &&
            (f.kind.InvalidTypeId? ==>
               r.body.errors[0].value == OfNullableString(f.kind.typeId) &&
               r.body.errors[0].constraint.value.name == INVALID_JSON_TYPE) &&
            (f.kind.MismatchedInput? ==>
               r.body.errors[0].value == Null && r.body.errors[0].constraint.value.name == INCORRECT_TYPE &&
               r.body.errors[0].constraint.value.messageParams["expectedType"] ==
                 Str(SubstringAfterLast(f.kind.input.targetType.name, '.')))
  {
    var h := HandleThrownException(Some(f), now);
    match f.kind
    case MissingKotlinParameter(_) =>
      assert Classify(f.kind) == Some(IsMissingKotlinParameter);
      assert h == Dispatch(f, now) == HandleMissingParameter(f);
    case InvalidTypeId(_, _) =>
      assert Classify(f.kind) == Some(IsInvalidTypeId);
      assert h == Dispatch(f, now) == HandleInvalidJsonType(f);
    case MismatchedInput(_) =>
      assert Classify(f.kind) == Some(IsMismatchedInput);
      assert h == Dispatch(f, now) == HandleMismatchedInput(f);
    case _ =>
  }

  /** An `UnauthorizedException` has no branch of its own, so on its own it falls through to 500. */
  lemma UnauthorizedFallsThrough(f: Failure, now: LocalDateTime)
    requires f.kind.Unauthorized? && f.cause.None?
    ensures var r := HandleThrownException(Some(f), now).response;
            r.status == INTERNAL_SERVER_ERROR && r.body.GeneralBody? && r.body.error.message == f.message
  {
    assert HandleForException(None, Some(f), now) == UnhandledException(f, now);
  }

  /** Only the storage constraint violation logs a warning; the error-logging branches never do. */
  lemma WarningOnlyForStoreViolation(f: Failure, now: LocalDateTime)
    requires Classify(f.kind).Some?
    ensures var h := Dispatch(f, now);
            (h.log.Some? && h.log.value.level == WarningLevel) <==> f.kind.HibernateConstraintViolation?
  {
  }
}
