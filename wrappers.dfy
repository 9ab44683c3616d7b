/** Option and Result: the model's way of saying "no value" and "the script stops with an error". */
module Wrappers {

  datatype Option<+T> = None | Some(value: T)

  /** `Failure` stands for an exception that aborts the script (an assertion, a failed unpack,
      a missing key, a division by zero, an explicit `raise`). */
  datatype Result<+T> = Success(value: T) | Failure(error: string)
}
