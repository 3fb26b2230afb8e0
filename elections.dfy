/**
 * The election entity graph (elections/Domain.kt and the position and nomination entities): an election
 * owns ordered lists of positions and nominations, and each child points back at its election.
 */
module Elections {
  import opened Wrappers
  import opened Values

  datatype ElectionType = FULL | BY_ELECTION

  /** `ElectionPositionEntity`; `election` is `lateinit`, modelled as null until it is set. */
  class ElectionPositionEntity {
    var id: Option<int>
    var name: string
    var election: ElectionEntity?

    constructor (name: string)
      ensures this.name == name && id.None? && election == null
    {
      this.name := name;
      id := None;
      election := null;
    }
  }

  /** `ElectionNominationEntity`: a user standing for a position of an election. */
  class ElectionNominationEntity {
    var id: Option<int>
    var election: ElectionEntity
    var position: ElectionPositionEntity
    var user: string
    var elected: bool

    constructor (election: ElectionEntity, position: ElectionPositionEntity, user: string, elected: bool)
      ensures this.election == election && this.position == position
      ensures this.user == user && this.elected == elected && id.None?
    {
      this.election := election;
      this.position := position;
      this.user := user;
      this.elected := elected;
      id := None;
    }
  }

  /** `ElectionEntity`. */
  class ElectionEntity {
    var id: Option<int>
    var electionType: ElectionType
    var nominationsStart: LocalDateTime
    var nominationsEnd: LocalDateTime
    var votingStart: LocalDateTime
    var votingEnd: LocalDateTime
    var hustingsStart: Option<LocalDateTime>
    var hustingsLocation: Option<string>
    var bathStudentId: Option<string>
    var positions: seq<ElectionPositionEntity>
    var nominations: seq<ElectionNominationEntity>

    /** Every position and every nomination of this election points back at it. */
    ghost predicate BackLinked()
      reads this, positions, nominations
    {
      (forall i :: 0 <= i < |positions| ==> positions[i].election == this) &&
      (forall i :: 0 <= i < |nominations| ==> nominations[i].election == this)
    }

    /** A new election, unpersisted, with no positions and no nominations. */
    constructor (electionType: ElectionType, nominationsStart: LocalDateTime, nominationsEnd: LocalDateTime,
                 votingStart: LocalDateTime, votingEnd: LocalDateTime, hustingsStart: Option<LocalDateTime>,
                 hustingsLocation: Option<string>, bathStudentId: Option<string>)
      ensures this.electionType == electionType
      ensures this.nominationsStart == nominationsStart && this.nominationsEnd == nominationsEnd
      ensures this.votingStart == votingStart && this.votingEnd == votingEnd
      ensures this.hustingsStart == hustingsStart && this.hustingsLocation == hustingsLocation
      ensures this.bathStudentId == bathStudentId
      ensures id.None? && positions == [] && nominations == []
      ensures BackLinked()
    {
      this.electionType := electionType;
      this.nominationsStart := nominationsStart;
      this.nominationsEnd := nominationsEnd;
      this.votingStart := votingStart;
      this.votingEnd := votingEnd;
      this.hustingsStart := hustingsStart;
      this.hustingsLocation := hustingsLocation;
      this.bathStudentId := bathStudentId;
      id := None;
      positions := [];
      nominations := [];
    }

    /**
     * `add(position)`: appends the position and points it at this election. Only the position list and
     * the position's back-reference change, and a back-linked election stays back-linked.
     */
    method AddPosition(position: ElectionPositionEntity)
      modifies this`positions, position`election
      ensures positions == old(positions) + [position]
      ensures position.election == this
      ensures old(BackLinked()) ==> BackLinked()
    {
      positions := positions + [position];
      position.election := this;
    }

    /**
     * `add(nomination)`: appends the nomination and points it at this election. Only the nomination list
     * and the nomination's back-reference change, and a back-linked election stays back-linked.
     */
    method AddNomination(nomination: ElectionNominationEntity)
      modifies this`nominations, nomination`election
      ensures nominations == old(nominations) + [nomination]
      ensures nomination.election == this
      ensures old(BackLinked()) ==> BackLinked()
    {
      nominations := nominations + [nomination];
      nomination.election := this;
    }
  }
}
