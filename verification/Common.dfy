/** Datatypes shared by all modules. */
module Common {
  datatype Option<T> = None | Some(value: T)

  /** The result of a check on a whole structure. A check returns this instead of a
      boolean where its clauses matter only together. */
  datatype Status = Sound | Broken
}
