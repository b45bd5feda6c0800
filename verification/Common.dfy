/** Types shared by the components. */
module Common {

  datatype Option<+T> = None | Some(value: T)

  /** aura_status_t. */
  datatype Status = OK | ERR | NOMEM | NOSLOT | NOTFOUND | BUSY
}
