/** The exceptions the core throws, as values. */
module Failures {

  datatype Failure =
    /** DatabaseWriteException: the store rejected a mutation; the transaction was rolled back. */
    | DatabaseWrite(message: string)
    /** DatabaseReadException: the store could not run a query. */
    | DatabaseRead(message: string)
    /** NullPointerException, e.g. from unboxing a null id into a statement parameter. */
    | NullPointer
    /** IllegalArgumentException with its message. */
    | IllegalArgument(message: string)
    /** The IllegalArgumentException "Validation errors: m1; m2; ..." raised for bean-validation violations;
        the messages come from a hash set, so only the set of them is modelled. */
    | ConstraintViolations(messages: set<string>)
    /** A checked java.lang.Exception, the one raised when a user tries to delete their own account. */
    | Checked(message: string)
    /** A RuntimeException wrapping the failure that caused it. */
    | Runtime(message: string, cause: Failure)

  /** The failure is an IllegalArgumentException. */
  predicate IsIllegalArgument(f: Failure) {
    f.IllegalArgument? || f.ConstraintViolations?
  }
}
