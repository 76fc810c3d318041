/** The optional value used wherever db/queries.py or the handlers return `None`, and for SQL `NULL`. */
module Wrappers {

  datatype Option<+T> = None | Some(value: T)

}
