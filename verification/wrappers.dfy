/** The optional value used across the model: `None` stands for JavaScript's
    `null`/`undefined`, and for a numeric result the model drops as non-finite. */
module Wrappers {

  datatype Option<+T> = None | Some(value: T)
}
