/** The optional value the aggregator uses for a cursor that is not yet set. */
module Optional {

  datatype Option<+T> = None | Some(value: T)
}
