/** The optional value the model uses where the source returns `None` or
    skips an item. */
module Optional {
  datatype Option<+T> = None | Some(value: T)
}
