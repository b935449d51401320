module Options {
  /** A value that may be missing: an absent marker file, a failed reading, an empty reply field. */
  datatype Option<+T> = None | Some(value: T)
}
