/** Failure-compatible types shared by every module, and the ways the compiler stops. */
module Results {

  datatype Option<+T> = None | Some(value: T)

  /** Why a compiler run stopped: each value but the first is one `exit(1)` of the program;
      `NullDereference` is a crash on a null pointer. */
  datatype Failure =
    | NullDereference
    | SizeofFailed
    | TooManyLocals
    | UndefinedVariable
    | DeclWithoutSlot
    | NotAnLvalue
    | FieldNotFound
    | UnsupportedBinop
    | UnknownString
    | BreakOutsideLoop
    | ContinueOutsideLoop

  /** The result of a compiler function: a value, or the end of the process. */
  datatype Result<+T> = Ok(value: T) | Exit(why: Failure) {
    predicate IsFailure() {
      Exit?
    }

    function PropagateFailure<U>(): Result<U>
      requires Exit?
    {
      Exit(why)
    }

    function Extract(): T
      requires Ok?
    {
      value
    }
  }
}
