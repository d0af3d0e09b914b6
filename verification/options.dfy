/** Null-able cells and fallible results shared by every stage of the pipeline. */
module Options {

  /** A value that may be missing: `None` stands for Python's `None` and pandas' `NaN`. */
  datatype Option<+T> = None | Some(value: T) {

    /** The wrapped value, or `default` when missing (pandas' `fillna`). */
    function GetOr(default: T): T {
      match this
      case Some(v) => v
      case None => default
    }
  }

  /** The outcome of a step that may raise: `Raised` is an uncaught Python exception. */
  datatype Result<+T> = Ok(value: T) | Raised(reason: string)

  /**
    A member of a parsed JSON object that the code subscripts or iterates: missing, `null`
    (or another value that is not a container), or present.
   */
  datatype Member<+T> = Absent | Null | Present(value: T)

  /** Python's exception on using a member that is not present: `KeyError` or `TypeError`. */
  function UseError<T>(m: Member<T>): (e: string)
    requires !m.Present?
    ensures e == "KeyError" <==> m.Absent?
    ensures e == "TypeError" <==> m.Null?
  {
    if m.Absent? then "KeyError" else "TypeError"
  }
}
