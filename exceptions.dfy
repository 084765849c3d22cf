/** The Python exceptions the modelled code can raise. None of them is caught
    by the modelled code except AssertionError, which the checks catch and
    count and the older driver lets propagate. */
module Exceptions {

  datatype Exc =
    | KeyError           // a missing dictionary key, column or format field
    | TypeError          // an operation on values of the wrong runtime type
    | ValueError         // int() of text that is not a number, a malformed format string, a bad shape
    | IndexError         // indexing an empty list
    | UnboundLocalError  // a local variable read before its first assignment
    | AssertionError(offBy: nat)  // a failed `assert` carrying the difference in its message
}
