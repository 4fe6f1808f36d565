/** A value that may be absent: a JavaScript `null`, an unanswered query, a
    dismissed picker. */
module Optional {
  datatype Option<T> = None | Some(value: T)
}
