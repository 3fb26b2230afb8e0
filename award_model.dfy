/** The award entity and its request/response shapes (awards/Entity.kt, awards/DTO.kt). */
module AwardModel {
  import opened Wrappers
  import opened Policy

  /** A `java.util.UUID`, held in its string form. */
  type Uuid = string

  /** `AwardEntity`; `id` is the inherited entity id, absent until the entity is persisted. */
  datatype AwardEntity = AwardEntity(
    id: Option<Uuid>,
    name: string,
    description: Option<string>,
    recurring: bool,
    suggestedBy: string,
    approved: bool)
  {
    /** The entity seen through `HasAuthor`: its author is whoever suggested it. */
    function AsHasAuthor(): (h: HasAuthor)
      ensures h.authorId == suggestedBy
    {
      HasAuthor(suggestedBy)
    }
  }

  /** `AwardRequest.Create`. */
  datatype CreateRequest = CreateRequest(name: string, description: Option<string>, recurring: bool)

  /** `AwardRequest.Update`. */
  datatype UpdateRequest = UpdateRequest(name: string, description: Option<string>, recurring: bool)

  /** `AwardResponse.Full`. */
  datatype FullResponse = FullResponse(
    id: Uuid,
    name: string,
    description: Option<string>,
    recurring: bool,
    suggestedBy: string,
    approved: bool)

  /** The requested response class: `AwardResponse.Full` or any other class, by qualified name. */
  datatype ResponseClass = Full | OtherClass(qualifiedName: string)

  /** How Kotlin prints `AwardEntity::class`. */
  const AWARD_ENTITY_CLASS := "class org.backstage.awards.AwardEntity"

  /** How Kotlin prints a `KClass`. */
  function ClassText(c: ResponseClass): string {
    match c
    case Full => "class org.backstage.awards.AwardResponse$Full"
    case OtherClass(name) => "class " + name
  }

  /** The caller is the author of an award exactly when its user id is the award's `suggestedBy`. */
  lemma AuthorIsSuggester(identity: SecurityIdentity, e: AwardEntity)
    ensures IsAuthorOf(identity, Some(e.AsHasAuthor())) <==> GetUserId(identity) == Some(e.suggestedBy)
  {
  }
}
