/** The conventional optional value, used for symbol-table lookups and for the
    rewriter's nullable list of left comments. */
module Options {
  datatype Option<+T> = None | Some(value: T)
}
