/** The CRUD vocabulary shared by the services (util/Crud.kt). */
module Crud {
  /** `CrudOperations`. */
  datatype CrudOperation = LIST | CREATE | VIEW | UPDATE | DELETE

  /**
   * A policy's `action: Any`: either one of the CRUD operations or some other value, identified by its
   * string form.
   */
  datatype Action = Crud(op: CrudOperation) | OtherAction(tag: string)
}
