/** The optional value a lookup or a loader may fail to produce. */
module Options {
  datatype Option<+T> = None | Some(value: T)
}
