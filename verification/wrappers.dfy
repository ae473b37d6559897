/** The optional value used for the evaluator's well column. */
module Wrappers {
  datatype Option<+T> = None | Some(value: T)
}
