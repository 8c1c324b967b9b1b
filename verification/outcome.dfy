/** The ways a calculation of the core stops early. The source raises a Python
    exception in each case; the model returns a `Failure` instead. */
module Outcome {

  datatype Fault =
    | ZeroDivision     // a float division by zero
    | LogDomain        // the logarithm of a non-positive number
    | ComplexOrdering  // a complex intermediate compared with `>`

  datatype Result<+T> = Success(value: T) | Failure(fault: Fault)
}
