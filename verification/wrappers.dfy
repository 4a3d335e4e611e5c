/** Option and Result: the model's stand-ins for Python's `None` and for the
    exceptions the services raise. */
module Wrappers {

  datatype Option<+T> = None | Some(value: T) {

    /** The value held, or `default` when there is none. */
    function GetOr(default: T): T {
      match this
      case Some(v) => v
      case None => default
    }
  }

  datatype Result<+R, +E> = Ok(value: R) | Err(error: E) {

    predicate IsFailure() {
      Err?
    }

    function PropagateFailure<U>(): Result<U, E>
      requires Err?
    {
      Err(error)
    }

    function Extract(): R
      requires Ok?
    {
      value
    }
  }

  /** The failures the modelled services can raise. Each names the Python
      exception site it stands for. */
  datatype Error =
    | InvalidInput          // ValueError: empty destination text
    | SessionNotFound       // ValueError: no `Recent` with that id
    | NoneHasNoAttribute    // AttributeError: a method called on `None`
    | NoCandidates          // ValueError: both retrieval tiers came back empty
    | PlanNotFound          // ValueError: no `Planner` references the session
    | GenerationFailed      // the prompt/model/parser chain raised
    | MalformedOutput       // a mapping result did not fit the schema
    /** A model field the code names but the schema does not declare:
        assigning it is pydantic's `ValueError`, reading it is Python's
        `AttributeError`. */
    | NoSuchField(field: string)
    | NoneNotIterable       // TypeError: a substring test against `None`
}
