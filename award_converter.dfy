/** Conversions between award requests, entities and responses (awards/Converter.kt). */
module AwardConverter {
  import opened Wrappers
  import opened Values
  import opened Failures
  import opened Policy
  import opened AwardModel

  /**
   * `toEntity(request, identity)`: a new, unpersisted, unapproved award suggested by the caller.
   * The caller must carry a user id, as the entity's `suggestedBy` cannot be null.
   */
  function ToEntity(request: CreateRequest, identity: SecurityIdentity): (e: AwardEntity)
    requires GetUserId(identity).Some?
    ensures e.id.None? && !e.approved
    ensures e.name == request.name && e.description == request.description && e.recurring == request.recurring
    ensures Some(e.suggestedBy) == GetUserId(identity)
  {
    AwardEntity(None, request.name, request.description, request.recurring, GetUserId(identity).value, false)
  }

  /** The failure for a response class the converter does not know. */
  function CannotConvert(target: ResponseClass): (f: Failure)
    ensures f.kind.IllegalArgument? && f.cause.None?
    ensures f.message.Some? && StartsWith(f.message.value, "Cannot convert ")
  {
    Failure(IllegalArgument, Some("Cannot convert " + AWARD_ENTITY_CLASS + " to " + ClassText(target)), None)
  }

  /** `toResponse<T>(entity)`: `Full` copies all six fields; any other class is an illegal argument. */
  function ToResponse(entity: AwardEntity, target: ResponseClass): (r: Result<FullResponse, Failure>)
    requires entity.id.Some?
    ensures r.Ok? <==> target.Full?
    ensures r.Ok? ==> r.value.id == entity.id.value && r.value.name == entity.name &&
                      r.value.description == entity.description && r.value.recurring == entity.recurring &&
                      r.value.suggestedBy == entity.suggestedBy && r.value.approved == entity.approved
    ensures r.Err? ==> r.error == CannotConvert(target)
  {
    match target
    case Full =>
      Ok(FullResponse(entity.id.value, entity.name, entity.description, entity.recurring,
                      entity.suggestedBy, entity.approved))
    case OtherClass(_) => Err(CannotConvert(target))
  }

  /** The full response of an entity determines it: conversion loses nothing. */
  lemma ToResponseInjective(a: AwardEntity, b: AwardEntity)
    requires a.id.Some? && b.id.Some?
    requires ToResponse(a, Full) == ToResponse(b, Full)
    ensures a == b
  {
  }

  /**
   * Creating then persisting (under some id) then viewing an award gives back the request's fields, the
   * caller as the suggester, and not approved; the caller is then the award's author.
   */
  lemma CreatedAwardRoundTrip(request: CreateRequest, identity: SecurityIdentity, id: Uuid)
    requires GetUserId(identity).Some?
    ensures var e := ToEntity(request, identity).(id := Some(id));
            ToResponse(e, Full) ==
              Ok(FullResponse(id, request.name, request.description, request.recurring,
                              GetUserId(identity).value, false)) &&
            IsAuthorOf(identity, Some(e.AsHasAuthor()))
  {
  }
}
