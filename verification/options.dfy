// The optional value used throughout: absent fields, null anchors, missing answers.
module Options {
  datatype Option<+T> = None | Some(value: T)
}
