# Backstage API core, modelled in Dafny

This project models the decision logic of the Backstage Technical Services API, a Kotlin/Quarkus service. It covers four parts:

- **The global exception mapper.** It turns any thrown failure into an HTTP response. It walks the failure's cause chain, and the first failure whose class it recognises decides the status and body. The response bodies are general errors (`{timestamp, code, message}`) or single-item validation-error lists. Their field paths are built from Jackson path references.
- **The role-based authorisation primitives.** These are `allow`, `deny`, the two `authorise` forms, both `isAuthor` forms, `isMember`, `isAdmin` and `getUserId`, together with the award policy table.
- **The award service.** It holds a repository of awards and offers list, create, get, update, approve, unapprove and delete. Each lookup happens before authorisation, and the converters between requests, entities and responses are modelled with it.
- **Small constructors.** These are the validated `MenuLink` with the key-omission rules of the menu items, the election entity graph whose `add` methods append a child and set its back-reference, and the election converters.

Modules follow the source files:

| module | models |
|---|---|
| `Wrappers`, `Values` | `Option`/`Result`; JSON-like values for `Any?`, `LocalDateTime`, Kotlin string helpers |
| `ErrorDto` | error/DTO.kt, error/ErrorCodes.kt |
| `Failures` | the exception classes the mapper distinguishes, and the JAX-RS response |
| `Exceptions` | error/Exceptions.kt |
| `ExceptionMapper` | error/ExceptionMapper.kt |
| `Crud`, `Policy` | util/Crud.kt, auth/Policy.kt |
| `AwardModel`, `AwardConverter`, `AwardService` | awards/Entity.kt and DTO.kt, awards/Converter.kt, awards/Service.kt |
| `Menu` | menu/DTO.kt |
| `Elections`, `ElectionConverter` | elections/Domain.kt with the position and nomination entities; elections/Converter.kt with elections/position/Factory.kt |

A failure is a finite datatype. It holds a kind with the payload for that kind, an optional message and an optional cause. Kotlin's `is` test is the predicate `IsA`. Under it, Jackson's `MissingKotlinParameterException`, `InvalidFormatException` and `InvalidTypeIdException` also count as `MismatchedInputException`. Raising `UnauthorizedException` becomes the `Deny` decision.

Entities that the source mutates in place are modelled as follows:

- The award repository is a `map` field of the `RepositoryAwardService` class.
- The election, position and nomination entities are classes.
- `ElectionEntity`'s lists are `seq` fields that `AddPosition`/`AddNomination` reassign.

Two points of the source worth stating:

- `auth/Policy.kt` has no admin bypass, although `auth/AuthorisationTests.kt:67-93` expect one (a super admin is never denied). The model follows `Policy.kt`: an admin without the member role is denied LIST and VIEW (`AwardService.AdminWithoutMemberRoleCannotRead`). The admin role string is `ROLE_ADMIN`.
- `error/ExceptionMapper.kt:39-53` has no `UnauthorizedException` branch, so an Unauthorized failure with no cause gets a 500 (`ExceptionMapper.UnauthorizedFallsThrough`).

## Model

| member | source | states |
|---|---|---|
| ErrorDto.ConstraintDefaults | src/main/kotlin/org/backstage/error/DTO.kt:20-32 | a constraint built from a name has key `org.backstage.constraints.<name>.message`, bundle `org/backstage/messages` and no parameters |
| ErrorDto.MessageKeyFor | src/main/kotlin/org/backstage/error/DTO.kt:25 | the default key is exactly `org.backstage.constraints.`, then the name, then `.message` |
| ErrorDto.NewConstraint | src/main/kotlin/org/backstage/error/DTO.kt:20-32 | a constraint built from a name and parameters keeps both, with the default key for that name and the default bundle |
| ErrorDto.ErrorCodeKeysDistinct | src/main/kotlin/org/backstage/error/ErrorCodes.kt:5-14 | the nine distinct error codes have pairwise distinct message keys; `UNKNOWN_ENUM_VALUE` is an alias of `INVALID_ENUM_VALUE` and shares its key |
| ErrorDto.ConstraintJson | src/main/kotlin/org/backstage/error/DTO.kt:20-32 | a serialised constraint always has exactly its four keys, with its values |
| ErrorDto.ValidationErrorJson | src/main/kotlin/org/backstage/error/DTO.kt:9-18 | a serialised validation error always has `property` and `value`; it has `constraint` iff the constraint is non-null |
| ErrorDto.GeneralErrorJson | src/main/kotlin/org/backstage/error/DTO.kt:35-46 | a serialised general error always has `timestamp` and `code`; it has `message` iff the message is non-null, and then verbatim |
| Exceptions.HttpException | src/main/kotlin/org/backstage/error/Exceptions.kt:6 | the failure carries exactly the given status and message, and no cause |
| Exceptions.ExceptionWithMessage | src/main/kotlin/org/backstage/error/Exceptions.kt:8 | `status exceptionWithMessage msg` is an HTTP failure with exactly that status and message |
| Exceptions.CouldNotAssignId | src/main/kotlin/org/backstage/error/Exceptions.kt:12-15 | always 500; with no entity the message is "Failed to assign ID to entity"; otherwise it starts "Failed to assign ID" and contains the entity's class |
| Exceptions.EntityMissingId | src/main/kotlin/org/backstage/error/Exceptions.kt:17-18 | 500, and the message starts "Entity ", contains the class and ends "missing its ID" |
| ExceptionMapper.Classify | src/main/kotlin/org/backstage/error/ExceptionMapper.kt:39-50 | any branch chosen is one whose `is` test the failure passes |
| ExceptionMapper.ClassifyIsFirstMatch | src/main/kotlin/org/backstage/error/ExceptionMapper.kt:39-50 | the branch taken is the first one in declaration order whose test holds, both directions |
| ExceptionMapper.ClassifyNoneIffNoMatch | src/main/kotlin/org/backstage/error/ExceptionMapper.kt:39-51 | no branch is taken iff no test holds |
| ExceptionMapper.SubtypesWinOverMismatchedInput | src/main/kotlin/org/backstage/error/ExceptionMapper.kt:42-46 | the three Jackson subtypes pass the `MismatchedInputException` test but are caught by their own earlier branches |
| ExceptionMapper.BuildGeneralErrorResponse | src/main/kotlin/org/backstage/error/ExceptionMapper.kt:162-166 | the requested status; `code` equals it, `message` is the failure's message, the timestamp is the clock's, and the content type is JSON |
| ExceptionMapper.BuildHttpErrorResponse | src/main/kotlin/org/backstage/error/ExceptionMapper.kt:168 | an `HttpException` answers with its own status as status and code, and its own message |
| ExceptionMapper.BuildResponse | src/main/kotlin/org/backstage/error/ExceptionMapper.kt:170-174 | the status, a code equal to it, the given message and a JSON content type |
| ExceptionMapper.BuildValidationErrorResponse | src/main/kotlin/org/backstage/error/ExceptionMapper.kt:176-196 | 422 with JSON content type and exactly one error with the given field and value; the constraint is null iff the key is null, and otherwise its params are the given params with `value` set to the value |
| ExceptionMapper.ValidationParamsCarryValue | src/main/kotlin/org/backstage/error/ExceptionMapper.kt:180-188 | for any parameter map, the empty default included, the constraint's parameter keys are the given keys plus `value`; `value` maps to the offending value and every other key keeps its given value |
| ExceptionMapper.JoinPath | src/main/kotlin/org/backstage/error/ExceptionMapper.kt:204-209 | the joined text is empty iff the path is empty (every step contributes text) |
| ExceptionMapper.RemovePrefix | src/main/kotlin/org/backstage/error/ExceptionMapper.kt:210 | when the string starts with the prefix, prefix + result is the string; otherwise the string is unchanged |
| ExceptionMapper.JoinPathAppend | src/main/kotlin/org/backstage/error/ExceptionMapper.kt:204-209 | joining path parts distributes over concatenation, so the parts appear in path order |
| ExceptionMapper.BuildPathShape | src/main/kotlin/org/backstage/error/ExceptionMapper.kt:204-210 | an empty path gives ""; a path starting with a named field loses exactly that one leading `.`; a path starting with an index is unchanged |
| ExceptionMapper.BuildPathExtend | src/main/kotlin/org/backstage/error/ExceptionMapper.kt:204-210 | extending a non-empty path appends exactly `.name` or `[index]` for the new step |
| ExceptionMapper.BuildPathExample | src/main/kotlin/org/backstage/error/ExceptionMapper.kt:204-210 | the path field, 1, second, third, 6 gives `field[1].second.third[6]` |
| ExceptionMapper.LastIndexOf | src/main/kotlin/org/backstage/error/ExceptionMapper.kt:122 | Kotlin's `lastIndexOf`: a position inside the string, or -1 |
| ExceptionMapper.LastIndexOfIsLast | src/main/kotlin/org/backstage/error/ExceptionMapper.kt:122 | the position found holds the delimiter and no later one does; it is -1 iff the string has no delimiter |
| ExceptionMapper.SubstringAfterLast | src/main/kotlin/org/backstage/error/ExceptionMapper.kt:122 | the result is a suffix of the string |
| ExceptionMapper.SubstringAfterLastSpec | src/main/kotlin/org/backstage/error/ExceptionMapper.kt:122 | the result has no delimiter; it is the whole string when there is no delimiter, and otherwise exactly the suffix after the last one |
| ExceptionMapper.SimpleNameExample | src/main/kotlin/org/backstage/error/ExceptionMapper.kt:122 | `org.a.Foo` gives `Foo`, and `Foo` gives `Foo` |
| ExceptionMapper.HandleIllegalArgumentException | src/main/kotlin/org/backstage/error/ExceptionMapper.kt:71-73 | 400 general error with the failure's message, logged at error level |
| ExceptionMapper.HandleEntityNotFound | src/main/kotlin/org/backstage/error/ExceptionMapper.kt:153-155 | 404 general error with the failure's message, logged at error level |
| ExceptionMapper.HandleMissingParameter | src/main/kotlin/org/backstage/error/ExceptionMapper.kt:64-69 | a 422 `NotMissing` validation error on the built path with a null value |
| ExceptionMapper.HandleHttpException | src/main/kotlin/org/backstage/error/ExceptionMapper.kt:75-77 | the exception's own status and message, with a JSON content type, logged at error level |
| ExceptionMapper.HandleInvalidFormat | src/main/kotlin/org/backstage/error/ExceptionMapper.kt:94-108 | a date/time parse cause wins (`InvalidDateTime`, with the parsed text); then an enum target (`UnknownValue`, `allowedValue` = the constants); otherwise `InvalidFormat` with the raw value |
| ExceptionMapper.HandleInvalidEnumValue | src/main/kotlin/org/backstage/error/ExceptionMapper.kt:125-131 | 422 `UnknownValue` with the raw value and `allowedValue` = the enum constants |
| ExceptionMapper.HandleDateTimeParseException | src/main/kotlin/org/backstage/error/ExceptionMapper.kt:138-143 | 422 `InvalidDateTime` whose value is the text the parser was given |
| ExceptionMapper.HandleInvalidJsonType | src/main/kotlin/org/backstage/error/ExceptionMapper.kt:110-115 | 422 `InvalidTypeId` whose value is the unrecognised type id (null when absent) |
| ExceptionMapper.HandleMismatchedInput | src/main/kotlin/org/backstage/error/ExceptionMapper.kt:117-123 | 422 `IncorrectType` with a null value; `expectedType` is the target's name after its last `.` |
| ExceptionMapper.ExpectedTypeIsSimpleName | src/main/kotlin/org/backstage/error/ExceptionMapper.kt:122 | the `expectedType` parameter is present and is a `.`-free suffix of the target's qualified name |
| ExceptionMapper.HandleHibernateConstraintViolation | src/main/kotlin/org/backstage/error/ExceptionMapper.kt:149-151 | 422 general error with the failure's message, logged at warning level |
| ExceptionMapper.HandleNotImplemented | src/main/kotlin/org/backstage/error/ExceptionMapper.kt:81-84 | 501 with "Method not implemented", whatever the failure |
| ExceptionMapper.HandleNotAllowed | src/main/kotlin/org/backstage/error/ExceptionMapper.kt:79 | the exception's own response, unchanged |
| ExceptionMapper.HandleValidationConstraintViolation | src/main/kotlin/org/backstage/error/ExceptionMapper.kt:133-136 | 422 with the violations passed through as the entity and no added content-type header |
| ExceptionMapper.UnhandledException | src/main/kotlin/org/backstage/error/ExceptionMapper.kt:86-88 | 500 general error with the failure's message, logged at error level |
| ExceptionMapper.Dispatch | src/main/kotlin/org/backstage/error/ExceptionMapper.kt:39-50 | every recognised branch except NotAllowed and the validation violations sets a JSON content type |
| ExceptionMapper.HandleForException | src/main/kotlin/org/backstage/error/ExceptionMapper.kt:38-55 | a recognised failure is answered by its branch; a null failure ends the walk as an unhandled parent, or as the fixed "unknown" exception when there is no parent |
| ExceptionMapper.CauseChain | src/main/kotlin/org/backstage/error/ExceptionMapper.kt:54 | the chain starts at the failure, links each element to its cause and ends at a failure without a cause |
| ExceptionMapper.FirstRecognised | src/main/kotlin/org/backstage/error/ExceptionMapper.kt:39-54 | the position of the first recognised failure of a chain; nothing before it is recognised |
| ExceptionMapper.WalkFromHere | src/main/kotlin/org/backstage/error/ExceptionMapper.kt:38-55 | from any point of a chain, the walk answers with the first recognised failure's branch, or else with a 500 built from the innermost failure |
| ExceptionMapper.HandleThrownException | src/main/kotlin/org/backstage/error/ExceptionMapper.kt:37-58 | a null throwable gives the fixed "unknown" 500; a recognised throwable is answered by its own branch |
| ExceptionMapper.HandleThrownFollowsChain | src/main/kotlin/org/backstage/error/ExceptionMapper.kt:37-58 | the whole walk: the first recognised failure in the cause chain decides; with none, a 500 built from the innermost failure |
| ExceptionMapper.UnrecognisedDefersToCause | src/main/kotlin/org/backstage/error/ExceptionMapper.kt:54 | an unrecognised failure with a recognised cause is answered by the cause's branch |
| ExceptionMapper.NoneRecognised | src/main/kotlin/org/backstage/error/ExceptionMapper.kt:39-54 | a chain with no recognised failure has its first recognised position at its end |
| ExceptionMapper.ExhaustedChainIs500 | src/main/kotlin/org/backstage/error/ExceptionMapper.kt:51-53 | with nothing recognised, the answer is a JSON 500 carrying the innermost failure's message, logged at error level |
| ExceptionMapper.NullFailureIs500 | src/main/kotlin/org/backstage/error/ExceptionMapper.kt:51-53 | a null input gives 500 with "An unknown and unhandled error has occurred" |
| ExceptionMapper.BareFailureIs500 | src/main/kotlin/org/backstage/error/ExceptionMapper.kt:51-54 | an unrecognised failure without a cause gives 500 with its own message |
| ExceptionMapper.FixedOutcomes | src/main/kotlin/org/backstage/error/ExceptionMapper.kt:40-50 | per class, when the outermost failure is recognised: IllegalArgument 400, EntityNotFound 404, HttpException its own status and message, Hibernate 422, NotImplemented 501, NotAllowed its own response |
| ExceptionMapper.BindingOutcomes | src/main/kotlin/org/backstage/error/ExceptionMapper.kt:42-46 | a missing parameter gives 422 `NotMissing` with a null value; an unknown type id gives `InvalidTypeId` with the id; other mismatched input gives `IncorrectType` with a null value and the simple target name |
| ExceptionMapper.UnauthorizedFallsThrough | src/main/kotlin/org/backstage/error/ExceptionMapper.kt:39-53 | an `UnauthorizedException` without a cause has no branch and gives a 500 with its own message |
| ExceptionMapper.WarningOnlyForStoreViolation | src/main/kotlin/org/backstage/error/ExceptionMapper.kt:149-151 | a branch logs a warning iff the failure is the Hibernate constraint violation |
| Policy.GetUserId | src/main/kotlin/org/backstage/auth/Policy.kt:112-115 | the subject for an OIDC token principal, null for every other principal |
| Policy.IsMember | src/main/kotlin/org/backstage/auth/Policy.kt:102 | true iff the identity holds `ROLE_MEMBER` |
| Policy.IsAdmin | src/main/kotlin/org/backstage/auth/Policy.kt:103 | true iff the identity holds `ROLE_COMMITTEE` or `ROLE_ADMIN` |
| Policy.RolePredicates | src/main/kotlin/org/backstage/auth/Policy.kt:102-108 | the member role alone makes a member who is not an admin; the committee and admin roles alone never make a member |
| Policy.AllowDecision | src/main/kotlin/org/backstage/auth/Policy.kt:49 | `allow()` never denies |
| Policy.DenyDecision | src/main/kotlin/org/backstage/auth/Policy.kt:51-53 | `deny()` always denies |
| Policy.Authorise | src/main/kotlin/org/backstage/auth/Policy.kt:67-71 | denies iff `fn()` is false |
| Policy.AuthoriseEntity | src/main/kotlin/org/backstage/auth/Policy.kt:78-82 | denies whenever the entity is null; with an entity, denies iff `fn(entity)` is false |
| Policy.AuthoriseEntityIsAuthoriseOfApplication | src/main/kotlin/org/backstage/auth/Policy.kt:78-82 | with an entity present, the entity check equals the plain check of `fn` applied to that entity |
| Policy.MissingEntityAlwaysDenied | src/main/kotlin/org/backstage/auth/Policy.kt:78-82 | without an entity even an always-true predicate is denied |
| Policy.IsAuthor | src/main/kotlin/org/backstage/auth/Policy.kt:88-91 | false for a null entity; otherwise true iff the extracted id equals the caller's user id |
| Policy.IsAuthorOf | src/main/kotlin/org/backstage/auth/Policy.kt:97-100 | false for null; otherwise true iff the author id equals the caller's user id |
| Policy.IsAuthorOfIsIsAuthor | src/main/kotlin/org/backstage/auth/Policy.kt:88-100 | the `HasAuthor` overload agrees with the general one, using the author id as extractor |
| Policy.NonTokenCallerIsNeverAuthor | src/main/kotlin/org/backstage/auth/Policy.kt:112-115 | a caller without an OIDC token is never the author, under either overload |
| Policy.TokenCallerIsAuthorOfOwnEntity | src/main/kotlin/org/backstage/auth/Policy.kt:97-100 | a token caller is the author iff its subject is the author id |
| AwardModel.AwardEntity.AsHasAuthor | src/main/kotlin/org/backstage/awards/Entity.kt:35-36 | an award's author id is its `suggestedBy` |
| AwardModel.AuthorIsSuggester | src/main/kotlin/org/backstage/awards/Entity.kt:34-36 | the caller is an award's author iff its user id is the award's `suggestedBy` |
| AwardConverter.ToEntity | src/main/kotlin/org/backstage/awards/Converter.kt:7-13 | copies name, description and recurring; the suggester is the caller's user id; never approved; no id yet |
| AwardConverter.CannotConvert | src/main/kotlin/org/backstage/awards/Converter.kt:24 | an IllegalArgument failure whose message starts with "Cannot convert " |
| AwardConverter.ToResponse | src/main/kotlin/org/backstage/awards/Converter.kt:15-25 | succeeds iff the target is `Full`, copying all six fields; otherwise the IllegalArgument failure |
| AwardConverter.ToResponseInjective | src/main/kotlin/org/backstage/awards/Converter.kt:16-23 | two persisted awards with the same full response are the same award |
| AwardConverter.CreatedAwardRoundTrip | src/main/kotlin/org/backstage/awards/Converter.kt:7-23 | create, then persist under some id, then view gives the request's fields, the caller as suggester and unapproved; the caller is then the author |
| AwardService.AwardPolicy | src/main/kotlin/org/backstage/awards/Service.kt:25-34 | allows iff the action is LIST, CREATE or VIEW and the caller is a member, or UPDATE or DELETE and the caller is an admin |
| AwardService.AwardPolicyTable | src/main/kotlin/org/backstage/awards/Service.kt:25-34 | LIST, CREATE and VIEW are allowed iff the caller is a member; UPDATE and DELETE iff an admin; any other action is denied |
| AwardService.MemberOnlyCaller | src/main/kotlin/org/backstage/awards/Service.kt:26-31 | a member-only caller may list, create and view, but not update or delete |
| AwardService.AdminWithoutMemberRoleCannotRead | src/main/kotlin/org/backstage/awards/Service.kt:25-34 | an admin without the member role is denied LIST and VIEW but allowed UPDATE |
| AwardService.Modify | src/main/kotlin/org/backstage/awards/Service.kt:82-86 | overwrites name, description and recurring from the request; id, suggester and approval are unchanged |
| AwardService.ModifyIdempotentKeepsAuthor | src/main/kotlin/org/backstage/awards/Service.kt:82-86 | modifying twice with one request is modifying once, and authorship is unchanged |
| AwardService.ToClass | src/main/kotlin/org/backstage/awards/Service.kt:89-92 | dispatching on the response class agrees with the converter for every class |
| AwardService.NotFound | src/main/kotlin/org/backstage/awards/Service.kt:51-52 | the lookup failure is an HTTP 404 naming the missing id |
| AwardService.RepositoryAwardService.constructor | src/main/kotlin/org/backstage/awards/Service.kt:21-24 | a service over the given repository and identity |
| AwardService.RepositoryAwardService.List | src/main/kotlin/org/backstage/awards/Service.kt:36-41 | denied callers get Unauthorized; with `Full`, every stored award is listed exactly once, converted; with another class, only an empty repository lists, and otherwise the conversion failure is returned |
| AwardService.RepositoryAwardService.Create | src/main/kotlin/org/backstage/awards/Service.kt:44-49 | denied callers change nothing; otherwise exactly the converted request is stored under the new id, which is returned |
| AwardService.RepositoryAwardService.Get | src/main/kotlin/org/backstage/awards/Service.kt:51-54 | a missing id is NOT_FOUND whatever the roles; then denial; then the converted award |
| AwardService.RepositoryAwardService.Update | src/main/kotlin/org/backstage/awards/Service.kt:57-61 | NOT_FOUND before authorisation; a failed call changes nothing; otherwise only that award changes, by `Modify` |
| AwardService.RepositoryAwardService.Approve | src/main/kotlin/org/backstage/awards/Service.kt:64 | authorised as UPDATE; sets only `approved = true` on that award |
| AwardService.RepositoryAwardService.Unapprove | src/main/kotlin/org/backstage/awards/Service.kt:67 | authorised as UPDATE; sets only `approved = false` on that award |
| AwardService.RepositoryAwardService.Delete | src/main/kotlin/org/backstage/awards/Service.kt:70-73 | NOT_FOUND before authorisation; a failed call changes nothing; otherwise removes exactly that award |
| AwardService.RepositoryAwardService.UpdateApproval | src/main/kotlin/org/backstage/awards/Service.kt:75-79 | NOT_FOUND before authorisation; a denied call changes nothing; otherwise only that award's `approved` changes |
| Menu.NewMenuLink | src/main/kotlin/org/backstage/menu/DTO.kt:18-25 | accepted iff href or alias is non-null, keeping both; otherwise a `NotNull` violation on `href` |
| Menu.MenuLinkShapes | src/main/kotlin/org/backstage/menu/DTO.kt:18-25 | only href, only alias, or both are accepted; neither is rejected |
| Menu.MenuLinkJson | src/main/kotlin/org/backstage/menu/DTO.kt:10-17 | a serialised link has exactly its non-null keys, with their values |
| Menu.ValidLinkJsonNonEmpty | src/main/kotlin/org/backstage/menu/DTO.kt:10-25 | a link that passed validation, as every `Main` and `Admin` link has, never serialises to an empty object |
| Menu.MainJson | src/main/kotlin/org/backstage/menu/DTO.kt:29-42 | id, text and link always; `children` iff non-null, each child serialised in order |
| Menu.AdminJson | src/main/kotlin/org/backstage/menu/DTO.kt:44-60 | id, icon, text and link always; `items` iff non-null, each item serialised in order |
| Menu.MainWithoutChildren | src/main/kotlin/org/backstage/menu/DTO.kt:40-41 | nulling the children removes exactly the `children` key |
| Menu.AdminWithoutItems | src/main/kotlin/org/backstage/menu/DTO.kt:58-59 | nulling the items removes exactly the `items` key |
| Elections.ElectionPositionEntity.constructor | src/main/kotlin/org/backstage/elections/position/Domain.kt:15-22 | a position with the given name, no id and no election yet |
| Elections.ElectionNominationEntity.constructor | src/main/kotlin/org/backstage/elections/nomination/Domain.kt:16-30 | a nomination with the given election, position, user and elected flag |
| Elections.ElectionEntity.constructor | src/main/kotlin/org/backstage/elections/Domain.kt:16-46 | the given scalar fields, no id, and empty positions and nominations |
| Elections.ElectionEntity.AddPosition | src/main/kotlin/org/backstage/elections/Domain.kt:48-51 | appends the position at the end and points it at this election; only those two fields may change; back-links are preserved |
| Elections.ElectionEntity.AddNomination | src/main/kotlin/org/backstage/elections/Domain.kt:53-56 | appends the nomination and points it at this election; only those two fields may change; back-links are preserved |
| ElectionConverter.CreatePositionEntity | src/main/kotlin/org/backstage/elections/position/Factory.kt:7-9 | a new unattached position with the requested name |
| ElectionConverter.CreateEntity | src/main/kotlin/org/backstage/elections/Converter.kt:8-20 | a new election copying the scalar fields, with one new, distinct position per request position, in order, with the same name, each linked back to it |
| ElectionConverter.PositionToResponse | src/main/kotlin/org/backstage/elections/position/Factory.kt:11-14 | id and name copied; no response while the position has no id |
| ElectionConverter.PositionsToResponse | src/main/kotlin/org/backstage/elections/Converter.kt:36 | positions map one-to-one and in order, keeping id and name |
| ElectionConverter.ToResponse | src/main/kotlin/org/backstage/elections/Converter.kt:22-37 | copies id, type, hustings fields and student id; rebuilds both bands from the start/end fields; maps positions one-to-one in order |
| ElectionConverter.RoundTrip | src/main/kotlin/org/backstage/elections/Converter.kt:8-37 | once ids are assigned, the response of a created election agrees with the request on type, both bands, hustings fields, student id, and position count and names, position by position |
| ElectionConverter.UnpersistedHasNoResponse | src/main/kotlin/org/backstage/elections/Converter.kt:22-23 | an election without an id has no response |

## Left out

- The clock: `GeneralError.timestamp` defaults to `LocalDateTime.now()`. The model takes the time as a `now` parameter.
- Logging: `recordError`/`recordWarning` are returned as a log level and message next to the response. Nothing is written.
- Serialisation is limited to which keys are present and what they hold. Date formats, Jackson configuration and key order are library behaviour. Kotlin map ordering is not modelled; maps are unordered.
- Reflection: `targetType.isEnum`, `enumConstants`, `::class` names and `toString()` of ids become plain fields and strings. Valiktor, Jackson and Hibernate internals are left out. The Valiktor violation list is passed through unchanged.
- Cause cycles: causes are finite and strictly nested. The self-cause guard (`exception == parent`) is modelled, but a finite chain never reaches it, and longer cycles cannot be expressed. General cycle safety is not claimed.
- `authoriseAndDo` is not in `auth/Policy.kt`. The award service reads it as "authorise, then run the body"; that reading is an assumption taken from its call sites.
- The constructor parameter of `Policy`, the `Roles` object and the admin bypass expected by auth/AuthorisationTests.kt are not in `auth/Policy.kt`. They are not modelled.
- AwardConverter.ToEntity: requires the caller to carry a user id. The source passes the nullable `getUserId()` into the non-null `suggestedBy`.
- ElectionConverter.PositionToResponse: `None` stands for the `NullPointerException` raised when a position whose `id` is still null is converted, because the id goes into the non-null `Long` of elections/DTO.kt:33 (elections/position/Factory.kt:11-14). The exception mapper answers it with a 500; the throw itself is not modelled.
- ElectionConverter.PositionsToResponse: `None` stands for the same exception, raised by the first position without an id (elections/Converter.kt:36).
- ElectionConverter.ToResponse: `None` stands for the same exception, raised for an election without an id (elections/Converter.kt:22-23, elections/DTO.kt:14) or for one of its positions.
- AwardConverter.ToResponse: requires the award to be persisted (to have an id), as its non-null `id` field demands. `BaseEntity` is not part of this model.
- AwardService.RepositoryAwardService.Create: the store's id generation is a `newId` parameter, required to be unused; persistence is a map update.
- AwardService.NotFound: `findByIdOrThrow` is not part of this model. Its failure is taken as a 404 `HttpException` with message "Could not find award with ID: <id>", by analogy with the election services.
- Entities are values in the award repository, so aliasing of a fetched award with its stored copy is not modelled. The `update(repository)` persistence call becomes the map update.
- Request validation in awards/DTO.kt and elections/DTO.kt (`isNotBlank`, `isNotEmpty`) is not part of this model.
- Menu trees (menu/Builder.kt) and the `isAdmin` gate of menu/Service.kt are left out; they are constant data and a one-line guard.
- HTTP routing (the resource classes), the election and position services, auditing and the persistence mapping are framework plumbing and are left out.
- The nullable child lists `List<Main>?` and `List<Admin>?` are modelled as their own two-case datatypes, so that recursion over them terminates.
