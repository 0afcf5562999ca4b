/** The optional value used wherever the script reads something that may be absent
    (an error span, a stored consent, a focus target). */
module Options {
  datatype Option<+T> = None | Some(value: T)
}
