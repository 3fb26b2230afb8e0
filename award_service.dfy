/** The award service (awards/Service.kt): a policy table and CRUD operations over a repository. */
module AwardService {
  import opened Wrappers
  import opened Values
  import opened Failures
  import opened Exceptions
  import opened Crud
  import opened Policy
  import opened AwardModel
  import opened AwardConverter

  /**
   * The award policy: listing, creating and viewing need a member, updating and deleting need an admin,
   * any other action is denied. The entity is never consulted.
   */
  function AwardPolicy(identity: SecurityIdentity, action: Action): (d: Decision)
    ensures d == Allow <==>
              action.Crud? &&
              ((action.op in {LIST, CREATE, VIEW} && IsMember(identity)) ||
               (action.op in {UPDATE, DELETE} && IsAdmin(identity)))
  {
    match action
    case OtherAction(_) => DenyDecision()
    case Crud(op) =>
      match op
      case LIST => Authorise(() => IsMember(identity))
      case CREATE => Authorise(() => IsMember(identity))
      case VIEW => Authorise(() => IsMember(identity))
      case UPDATE => Authorise(() => IsAdmin(identity))
      case DELETE => Authorise(() => IsAdmin(identity))
  }

  /** The policy table, row by row. */
  lemma AwardPolicyTable(identity: SecurityIdentity, action: Action)
    ensures action in {Crud(LIST), Crud(CREATE), Crud(VIEW)} ==>
              (AwardPolicy(identity, action) == Allow <==> ROLE_MEMBER in identity.roles)
    ensures action in {Crud(UPDATE), Crud(DELETE)} ==>
              (AwardPolicy(identity, action) == Allow <==>
                 ROLE_COMMITTEE in identity.roles || ROLE_ADMIN in identity.roles)
    ensures action.OtherAction? ==> AwardPolicy(identity, action) == Deny
  {
  }

  /** A caller who is only a member may read and suggest awards but may not change or delete them. */
  lemma MemberOnlyCaller(principal: Principal)
    ensures var member := SecurityIdentity(principal, {ROLE_MEMBER});
            AwardPolicy(member, Crud(LIST)) == Allow && AwardPolicy(member, Crud(CREATE)) == Allow &&
            AwardPolicy(member, Crud(VIEW)) == Allow &&
            AwardPolicy(member, Crud(UPDATE)) == Deny && AwardPolicy(member, Crud(DELETE)) == Deny
  {
  }

  /** As written, admin rights are not a bypass: an admin without the member role may not even list awards. */
  lemma AdminWithoutMemberRoleCannotRead(principal: Principal)
    ensures var admin := SecurityIdentity(principal, {ROLE_ADMIN, ROLE_COMMITTEE});
            AwardPolicy(admin, Crud(LIST)) == Deny && AwardPolicy(admin, Crud(VIEW)) == Deny &&
            AwardPolicy(admin, Crud(UPDATE)) == Allow
  {
  }

  /** `AwardEntity.modify(request)`: overwrites name, description and recurring, and nothing else. */
  function Modify(e: AwardEntity, request: UpdateRequest): (m: AwardEntity)
    ensures m.name == request.name && m.description == request.description && m.recurring == request.recurring
    ensures m.id == e.id && m.suggestedBy == e.suggestedBy && m.approved == e.approved
  {
    e.(name := request.name, description := request.description, recurring := request.recurring)
  }

  /** Modifying twice with the same request is modifying once, and the author is never changed. */
  lemma ModifyIdempotentKeepsAuthor(e: AwardEntity, request: UpdateRequest, identity: SecurityIdentity)
    ensures Modify(Modify(e, request), request) == Modify(e, request)
    ensures IsAuthorOf(identity, Some(Modify(e, request).AsHasAuthor())) == IsAuthorOf(identity, Some(e.AsHasAuthor()))
  {
  }

  /** `AwardEntity.toClass(responseClass)`. */
  function ToClass(e: AwardEntity, responseClass: ResponseClass): (r: Result<FullResponse, Failure>)
    requires e.id.Some?
    ensures r == ToResponse(e, responseClass)
  {
    match responseClass
    case Full => ToResponse(e, Full)
    case OtherClass(_) => Err(CannotConvert(responseClass))
  }

  /** What `findByIdOrThrow` raises for an unknown id. */
  function NotFound(id: Uuid): (f: Failure)
    ensures f.kind == Http(NOT_FOUND) && f.message == Some("Could not find award with ID: " + id)
  {
    HttpException(NOT_FOUND, "Could not find award with ID: " + id)
  }

  /** Every stored award is stored under its own id. */
  ghost predicate IdsMatchKeys(repository: map<Uuid, AwardEntity>) {
    forall id :: id in repository ==> repository[id].id == Some(id)
  }

  /**
   * The state of the listing loop over a well-keyed repository: every listed response is the conversion of a distinct stored award no
   * longer remaining, and every stored award that is no longer remaining has been listed.
   */
  ghost predicate ListedSoFar(repository: map<Uuid, AwardEntity>, listed: seq<FullResponse>, remaining: set<Uuid>) {
    && IdsMatchKeys(repository)
    && remaining <= repository.Keys
    && |listed| + |remaining| == |repository.Keys|
    && (forall i :: 0 <= i < |listed| ==>
          listed[i].id in repository && listed[i].id !in remaining &&
          ToResponse(repository[listed[i].id], Full) == Ok(listed[i]))
    && (forall id :: id in repository && id !in remaining ==> exists i :: 0 <= i < |listed| && listed[i].id == id)
    && (forall i, j :: 0 <= i < j < |listed| ==> listed[i].id != listed[j].id)
  }

  /** Listing one more remaining award keeps the loop's state. */
  lemma ListStep(repository: map<Uuid, AwardEntity>, listed: seq<FullResponse>, remaining: set<Uuid>,
                 id: Uuid, response: FullResponse)
    requires ListedSoFar(repository, listed, remaining)
    requires id in remaining && response.id == id && ToResponse(repository[id], Full) == Ok(response)
    ensures ListedSoFar(repository, listed + [response], remaining - {id})
  {
    var next := listed + [response];
    var left := remaining - {id};
    assert forall i :: 0 <= i < |listed| ==> next[i] == listed[i];
    assert next[|listed|] == response;
    assert |left| == |remaining| - 1;
    forall other | other in repository && other !in left
      ensures exists i :: 0 <= i < |next| && next[i].id == other
    {
      if other == id {
        assert next[|listed|].id == other;
      } else {
        var i :| 0 <= i < |listed| && listed[i].id == other;
        assert next[i].id == other;
      }
    }
  }

  /** `RepositoryAwardService`: the awards repository and the calling identity. */
  class RepositoryAwardService {
    var repository: map<Uuid, AwardEntity>
    const identity: SecurityIdentity

    ghost predicate Valid()
      reads this
    {
      IdsMatchKeys(repository)
    }

    constructor (identity: SecurityIdentity, repository: map<Uuid, AwardEntity>)
      requires IdsMatchKeys(repository)
      ensures Valid()
      ensures this.identity == identity && this.repository == repository
    {
      this.identity := identity;
      this.repository := repository;
    }

    /**
     * `list(responseClass)`: authorise LIST, then convert every stored award. A denied caller gets
     * `Unauthorized`; with the `Full` class every award appears exactly once; with any other class the
     * first conversion fails, so only an empty repository lists successfully.
     */
    method List(responseClass: ResponseClass) returns (r: Result<seq<FullResponse>, Failure>)
      requires Valid()
      ensures AwardPolicy(identity, Crud(LIST)) == Deny ==> r == Err(UNAUTHORIZED_FAILURE)
      ensures AwardPolicy(identity, Crud(LIST)) == Allow && responseClass.OtherClass? ==>
                r == if repository == map[] then Ok([]) else Err(CannotConvert(responseClass))
      ensures AwardPolicy(identity, Crud(LIST)) == Allow && responseClass.Full? ==>
                r.Ok? && |r.value| == |repository.Keys| &&
                (forall i :: 0 <= i < |r.value| ==>
                   r.value[i].id in repository && ToResponse(repository[r.value[i].id], Full) == Ok(r.value[i])) &&
                (forall id :: id in repository ==> exists i :: 0 <= i < |r.value| && r.value[i].id == id) &&
                (forall i, j :: 0 <= i < j < |r.value| ==> r.value[i].id != r.value[j].id)
    {
      if AwardPolicy(identity, Crud(LIST)) == Deny {
        return Err(UNAUTHORIZED_FAILURE);
      }
      var remaining := repository.Keys;
      var listed: seq<FullResponse> := [];
      while remaining != {}
        invariant ListedSoFar(repository, listed, remaining)
        invariant responseClass.OtherClass? ==> listed == [] && remaining == repository.Keys
        decreases |remaining|
      {
        var id :| id in remaining;
        var converted := ToClass(repository[id], responseClass);
        if converted.Err? {
          return Err(converted.error);
        }
        assert converted.value.id == id;
        ListStep(repository, listed, remaining, id, converted.value);
        listed := listed + [converted.value];
        remaining := remaining - {id};
      }
      assert responseClass.OtherClass? ==> repository.Keys == {};
      return Ok(listed);
    }

    /**
     * `create(request)`: authorise CREATE, then persist a new award under the fresh id the store assigns
     * (`newId`) and return that id. A denied caller changes nothing.
     */
    method Create(request: CreateRequest, newId: Uuid) returns (r: Result<Uuid, Failure>)
      requires Valid() && newId !in repository
      requires AwardPolicy(identity, Crud(CREATE)) == Allow ==> GetUserId(identity).Some?
      modifies this
      ensures Valid()
      ensures AwardPolicy(identity, Crud(CREATE)) == Deny ==>
                r == Err(UNAUTHORIZED_FAILURE) && repository == old(repository)
      ensures AwardPolicy(identity, Crud(CREATE)) == Allow ==>
                r == Ok(newId) &&
                repository == old(repository)[newId := ToEntity(request, identity).(id := Some(newId))]
    {
      if AwardPolicy(identity, Crud(CREATE)) == Deny {
        return Err(UNAUTHORIZED_FAILURE);
      }
      var entity := ToEntity(request, identity).(id := Some(newId));
      repository := repository[newId := entity];
      return Ok(newId);
    }

    /** `get(id, responseClass)`: look up (not found beats authorisation), authorise VIEW, convert. */
    method Get(id: Uuid, responseClass: ResponseClass) returns (r: Result<FullResponse, Failure>)
      requires Valid()
      ensures id !in repository ==> r == Err(NotFound(id))
      ensures id in repository && AwardPolicy(identity, Crud(VIEW)) == Deny ==> r == Err(UNAUTHORIZED_FAILURE)
      ensures id in repository && AwardPolicy(identity, Crud(VIEW)) == Allow ==>
                r == ToResponse(repository[id], responseClass)
    {
      if id !in repository {
        return Err(NotFound(id));
      }
      var award := repository[id];
      if AwardPolicy(identity, Crud(VIEW)) == Deny {
        return Err(UNAUTHORIZED_FAILURE);
      }
      return ToClass(award, responseClass);
    }

    /** `update(id, request)`: look up, authorise UPDATE, modify the editable fields, save. */
    method Update(id: Uuid, request: UpdateRequest) returns (r: Outcome<Failure>)
      requires Valid()
      modifies this
      ensures Valid()
      ensures id !in old(repository) ==> r == Fail(NotFound(id)) && repository == old(repository)
      ensures id in old(repository) && AwardPolicy(identity, Crud(UPDATE)) == Deny ==>
                r == Fail(UNAUTHORIZED_FAILURE) && repository == old(repository)
      ensures id in old(repository) && AwardPolicy(identity, Crud(UPDATE)) == Allow ==>
                r == Pass && repository == old(repository)[id := Modify(old(repository)[id], request)]
    {
      if id !in repository {
        return Fail(NotFound(id));
      }
      var award := repository[id];
      if AwardPolicy(identity, Crud(UPDATE)) == Deny {
        return Fail(UNAUTHORIZED_FAILURE);
      }
      repository := repository[id := Modify(award, request)];
      return Pass;
    }

    /** `approve(id)`. */
    method Approve(id: Uuid) returns (r: Outcome<Failure>)
      requires Valid()
      modifies this
      ensures Valid()
      ensures id !in old(repository) ==> r == Fail(NotFound(id)) && repository == old(repository)
      ensures id in old(repository) && AwardPolicy(identity, Crud(UPDATE)) == Deny ==>
                r == Fail(UNAUTHORIZED_FAILURE) && repository == old(repository)
      ensures id in old(repository) && AwardPolicy(identity, Crud(UPDATE)) == Allow ==>
                r == Pass && repository == old(repository)[id := old(repository)[id].(approved := true)]
    {
      r := UpdateApproval(id, true);
    }

    /** `unapprove(id)`. */
    method Unapprove(id: Uuid) returns (r: Outcome<Failure>)
      requires Valid()
      modifies this
      ensures Valid()
      ensures id !in old(repository) ==> r == Fail(NotFound(id)) && repository == old(repository)
      ensures id in old(repository) && AwardPolicy(identity, Crud(UPDATE)) == Deny ==>
                r == Fail(UNAUTHORIZED_FAILURE) && repository == old(repository)
      ensures id in old(repository) && AwardPolicy(identity, Crud(UPDATE)) == Allow ==>
                r == Pass && repository == old(repository)[id := old(repository)[id].(approved := false)]
    {
      r := UpdateApproval(id, false);
    }

    /** `delete(id)`: look up, authorise DELETE, remove exactly that award. */
    method Delete(id: Uuid) returns (r: Outcome<Failure>)
      requires Valid()
      modifies this
      ensures Valid()
      ensures id !in old(repository) ==> r == Fail(NotFound(id)) && repository == old(repository)
      ensures id in old(repository) && AwardPolicy(identity, Crud(DELETE)) == Deny ==>
                r == Fail(UNAUTHORIZED_FAILURE) && repository == old(repository)
      ensures id in old(repository) && AwardPolicy(identity, Crud(DELETE)) == Allow ==>
                r == Pass && repository == old(repository) - {id}
    {
      if id !in repository {
        return Fail(NotFound(id));
      }
      if AwardPolicy(identity, Crud(DELETE)) == Deny {
        return Fail(UNAUTHORIZED_FAILURE);
      }
      repository := repository - {id};
      return Pass;
    }

    /** `updateApproval(id, approve)`: look up, authorise UPDATE, set `approved` and no other field. */
    method UpdateApproval(id: Uuid, approve: bool) returns (r: Outcome<Failure>)
      requires Valid()
      modifies this
      ensures Valid()
      ensures id !in old(repository) ==> r == Fail(NotFound(id)) && repository == old(repository)
      ensures id in old(repository) && AwardPolicy(identity, Crud(UPDATE)) == Deny ==>
                r == Fail(UNAUTHORIZED_FAILURE) && repository == old(repository)
      ensures id in old(repository) && AwardPolicy(identity, Crud(UPDATE)) == Allow ==>
                r == Pass && repository == old(repository)[id := old(repository)[id].(approved := approve)]
    {
      if id !in repository {
        return Fail(NotFound(id));
      }
      var award := repository[id];
      if AwardPolicy(identity, Crud(UPDATE)) == Deny {
        return Fail(UNAUTHORIZED_FAILURE);
      }
      repository := repository[id := award.(approved := approve)];
      return Pass;
    }
  }
}
