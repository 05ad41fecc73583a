/** Small shared vocabulary: optional column values and the failures of the
    outside collaborators (database, mail transport) that a request may meet. */
module Common {

  /** A nullable column or field: `null`/`undefined` in the source is `None`. */
  datatype Option<+T> = None | Some(value: T)

  /** Which external calls throw during one request. `lookup` is `findOne`,
      `write` is `create` or `update`, `mail` is the verification mail. */
  datatype Faults = Faults(lookup: bool, write: bool, mail: bool)

  /** No collaborator fails. */
  const NoFaults := Faults(false, false, false)
}
