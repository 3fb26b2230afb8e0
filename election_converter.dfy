/**
 * Conversions between election requests, entities and responses (elections/Converter.kt, with the position
 * conversions of elections/position/Factory.kt).
 */
module ElectionConverter {
  import opened Wrappers
  import opened Values
  import opened Elections

  /** `DateTimeBand`: a start and an end. */
  datatype DateTimeBand = DateTimeBand(start: LocalDateTime, end: LocalDateTime)

  /** `CreateElectionPosition`. */
  datatype CreateElectionPosition = CreateElectionPosition(name: string)

  /** `CreateElection`. */
  datatype CreateElection = CreateElection(
    electionType: ElectionType,
    nominations: DateTimeBand,
    voting: DateTimeBand,
    hustingsStart: Option<LocalDateTime>,
    hustingsLocation: Option<string>,
    bathStudentId: Option<string>,
    positions: seq<CreateElectionPosition>)

  /** `ElectionPositionResponse`. */
  datatype ElectionPositionResponse = ElectionPositionResponse(id: int, name: string)

  /** `ElectionResponse`. */
  datatype ElectionResponse = ElectionResponse(
    id: int,
    electionType: ElectionType,
    nominations: DateTimeBand,
    voting: DateTimeBand,
    hustingsStart: Option<LocalDateTime>,
    hustingsLocation: Option<string>,
    bathStudentId: Option<string>,
    positions: seq<ElectionPositionResponse>)

  /** The scalar fields of an entity are those of the request it was created from. */
  ghost predicate CopiesScalars(e: ElectionEntity, request: CreateElection)
    reads e
  {
    e.electionType == request.electionType &&
    e.nominationsStart == request.nominations.start && e.nominationsEnd == request.nominations.end &&
    e.votingStart == request.voting.start && e.votingEnd == request.voting.end &&
    e.hustingsStart == request.hustingsStart && e.hustingsLocation == request.hustingsLocation &&
    e.bathStudentId == request.bathStudentId
  }

  /** An entity's positions are one per request position, in order, with the same names, linked back to it. */
  ghost predicate MirrorsPositions(e: ElectionEntity, request: CreateElection)
    reads e, e.positions
  {
    |e.positions| == |request.positions| &&
    (forall i :: 0 <= i < |e.positions| ==>
       e.positions[i].name == request.positions[i].name && e.positions[i].election == e)
  }

  /** `ElectionPositionConverter.createEntity(request)`: a new, unattached position with the requested name. */
  method CreatePositionEntity(request: CreateElectionPosition) returns (p: ElectionPositionEntity)
    ensures fresh(p) && p.name == request.name && p.id.None? && p.election == null
  {
    p := new ElectionPositionEntity(request.name);
  }

  /**
   * `ElectionConverter.createEntity(request)`: a new election copying the request's scalar fields, then
   * one new position per request position, in order and distinct, each added to the election.
   */
  method CreateEntity(request: CreateElection) returns (e: ElectionEntity)
    ensures fresh(e) && e.id.None? && e.nominations == []
    ensures CopiesScalars(e, request) && MirrorsPositions(e, request)
    ensures forall i :: 0 <= i < |e.positions| ==> fresh(e.positions[i]) && e.positions[i].id.None?
    ensures forall i, j :: 0 <= i < j < |e.positions| ==> e.positions[i] != e.positions[j]
    ensures e.BackLinked()
  {
    e := new ElectionEntity(request.electionType, request.nominations.start, request.nominations.end,
                            request.voting.start, request.voting.end, request.hustingsStart,
                            request.hustingsLocation, request.bathStudentId);
    // request.positions.map(createEntity)
    var created: seq<ElectionPositionEntity> := [];
    for k := 0 to |request.positions|
      invariant |created| == k
      invariant forall i :: 0 <= i < k ==>
                  fresh(created[i]) && created[i].name == request.positions[i].name &&
                  created[i].id.None? && created[i].election == null
      invariant forall i, j :: 0 <= i < j < k ==> created[i] != created[j]
      invariant e.positions == [] && e.nominations == [] && e.id.None? && CopiesScalars(e, request)
    {
      var p := CreatePositionEntity(request.positions[k]);
      created := created + [p];
    }
    // .forEach(this::add)
    for k := 0 to |created|
      invariant e.positions == created[..k]
      invariant forall i :: 0 <= i < k ==> created[i].election == e
      invariant forall i :: k <= i < |created| ==> created[i].election == null
      invariant forall i :: 0 <= i < |created| ==>
                  fresh(created[i]) && created[i].name == request.positions[i].name && created[i].id.None?
      invariant CopiesScalars(e, request) && e.id.None? && e.nominations == []
      invariant e.BackLinked()
    {
      e.AddPosition(created[k]);
    }
  }

  /** `ElectionPositionConverter.toResponse(position)`; `None` when the position has no id yet. */
  function PositionToResponse(p: ElectionPositionEntity): (r: Option<ElectionPositionResponse>)
    reads p
    ensures r.Some? <==> p.id.Some?
    ensures r.Some? ==> r.value.id == p.id.value && r.value.name == p.name
  {
    match p.id
    case None => None
    case Some(id) => Some(ElectionPositionResponse(id, p.name))
  }

  /** The position responses, in order; `None` when some position has no id. */
  function PositionsToResponse(ps: seq<ElectionPositionEntity>): (r: Option<seq<ElectionPositionResponse>>)
    reads ps
    ensures r.Some? <==> forall i :: 0 <= i < |ps| ==> ps[i].id.Some?
    ensures r.Some? ==> |r.value| == |ps| &&
                        forall i :: 0 <= i < |ps| ==> r.value[i].id == ps[i].id.value && r.value[i].name == ps[i].name
  {
    if ps == [] then Some([])
    else
      match (PositionToResponse(ps[0]), PositionsToResponse(ps[1..]))
      case (Some(head), Some(tail)) => Some([head] + tail)
      case _ => None
  }

  /**
   * `ElectionConverter.toResponse(election)`. The response's ids are non-null, so an election or a position
   * that has not been given an id has no response (`None`).
   */
  function ToResponse(e: ElectionEntity): (r: Option<ElectionResponse>)
    reads e, e.positions
    ensures r.Some? <==> e.id.Some? && forall i :: 0 <= i < |e.positions| ==> e.positions[i].id.Some?
    ensures r.Some? ==>
              r.value.id == e.id.value && r.value.electionType == e.electionType &&
              r.value.nominations == DateTimeBand(e.nominationsStart, e.nominationsEnd) &&
              r.value.voting == DateTimeBand(e.votingStart, e.votingEnd) &&
              r.value.hustingsStart == e.hustingsStart && r.value.hustingsLocation == e.hustingsLocation &&
              r.value.bathStudentId == e.bathStudentId &&
              |r.value.positions| == |e.positions| &&
              forall i :: 0 <= i < |e.positions| ==>
                r.value.positions[i].id == e.positions[i].id.value &&
                r.value.positions[i].name == e.positions[i].name
  {
    match (e.id, PositionsToResponse(e.positions))
    case (Some(id), Some(ps)) =>
      Some(ElectionResponse(id, e.electionType, DateTimeBand(e.nominationsStart, e.nominationsEnd),
                            DateTimeBand(e.votingStart, e.votingEnd), e.hustingsStart, e.hustingsLocation,
                            e.bathStudentId, ps))
    case _ => None
  }

  /**
   * Round trip: once an entity built from a request has been given ids, its response agrees with the
   * request on type, both bands, the hustings fields, the student id and the position names in order.
   */
  lemma RoundTrip(e: ElectionEntity, request: CreateElection)
    requires CopiesScalars(e, request) && MirrorsPositions(e, request)
    requires e.id.Some? && forall i :: 0 <= i < |e.positions| ==> e.positions[i].id.Some?
    ensures ToResponse(e).Some?
    ensures var r := ToResponse(e).value;
            r.electionType == request.electionType && r.nominations == request.nominations &&
            r.voting == request.voting && r.hustingsStart == request.hustingsStart &&
            r.hustingsLocation == request.hustingsLocation && r.bathStudentId == request.bathStudentId &&
            |r.positions| == |request.positions| &&
            forall i :: 0 <= i < |r.positions| ==> r.positions[i].name == request.positions[i].name
  {
    var r := ToResponse(e).value;
    forall i | 0 <= i < |r.positions|
      ensures r.positions[i].name == request.positions[i].name
    {
      assert r.positions[i].name == e.positions[i].name;
    }
  }

  /** A freshly created election has not been given an id, so it has no response yet. */
  lemma UnpersistedHasNoResponse(e: ElectionEntity)
    requires e.id.None?
    ensures ToResponse(e).None?
  {
  }
}
