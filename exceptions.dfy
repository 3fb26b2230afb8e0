/** The application's own exception, `HttpException`, and its factories (error/Exceptions.kt). */
module Exceptions {
  import opened Wrappers
  import opened Values
  import opened Failures

  /** `HttpException(status, message)`: a failure that carries the response status it should produce. */
  function HttpException(status: int, message: string): (f: Failure)
    ensures f.kind.Http? && f.kind.status == status
    ensures f.message == Some(message) && f.cause.None?
  {
    Failure(Http(status), Some(message), None)
  }

  /** `status exceptionWithMessage message`. */
  function ExceptionWithMessage(status: int, message: string): (f: Failure)
    ensures f.kind == Http(status) && f.message == Some(message)
  {
    HttpException(status, message)
  }

  /**
   * `ExceptionFactory.couldNotAssignId(entity)`: `entityClass` is the printed `entity::class`
   * (`class a.b.C`), or `None` when no entity is given.
   */
  function CouldNotAssignId(entityClass: Option<string>): (f: Failure)
    ensures f.kind == Http(INTERNAL_SERVER_ERROR) && f.message.Some?
    ensures entityClass.None? ==> f.message == Some("Failed to assign ID to entity")
    ensures StartsWith(f.message.value, "Failed to assign ID")
    ensures entityClass.Some? ==> Contains(f.message.value, entityClass.value)
  {
    match entityClass
    case None => ExceptionWithMessage(INTERNAL_SERVER_ERROR, "Failed to assign ID to entity")
    case Some(c) =>
      var m := "Failed to assign ID to " + c;
      assert OccursAt(m, c, |"Failed to assign ID to "|);
      ExceptionWithMessage(INTERNAL_SERVER_ERROR, m)
  }

  /** `ExceptionFactory.entityMissingId(entity)`, with `entityClass` the printed `entity::class`. */
  function EntityMissingId(entityClass: string): (f: Failure)
    ensures f.kind == Http(INTERNAL_SERVER_ERROR) && f.message.Some?
    ensures StartsWith(f.message.value, "Entity ")
    ensures Contains(f.message.value, entityClass)
    ensures EndsWith(f.message.value, "missing its ID")
  {
    var m := "Entity " + entityClass + " is missing its ID";
    assert OccursAt(m, entityClass, |"Entity "|);
    ExceptionWithMessage(INTERNAL_SERVER_ERROR, m)
  }
}
