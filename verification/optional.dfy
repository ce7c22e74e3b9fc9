/** The optional values of the tracker: an unselected worker or task, a missing session. */
module Optional {

  datatype Option<+T> = None | Some(value: T)
}
