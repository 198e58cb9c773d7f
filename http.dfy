/** Request inputs after JavaScript parsing, and the error responses the handlers send. */
module Http {

  datatype Option<T> = None | Some(value: T)

  /** A request field after `parseInt`, `validator.toInt` or `dayjs(...)`:
      `Absent` is an undefined or empty field, `Invalid` one that parses to NaN
      (or an invalid date), `Value` the parsed integer (or instant in ms). */
  datatype Input<T> = Absent | Invalid | Value(v: T)

  /** A request field that a validator screens before a second parse reads it:
      `Missing` is an undefined or empty field, `Rejected` one the validator
      refuses, and `Accepted(parsed)` one it lets through, with what the
      second parse gives (`None` for NaN or an invalid date). The two parses
      disagree: `isNaN` accepts " ", ".5" and "Infinity", on which `parseInt`
      gives NaN; ISO 8601 accepts week, ordinal and full date-time forms,
      which no longer make a date once a clock time is appended. */
  datatype Checked<T> = Missing | Rejected | Accepted(parsed: Option<T>)
  {
    /** Both parses succeed. */
    predicate Parsed() {
      Accepted? && parsed.Some?
    }
  }

  /** A JSON body value used as a number without any parse: `Whole(n)` is an
      integral number; `NotWhole` is every other value (a fraction, a string,
      a boolean, null, an array, an object or undefined), with the outcome of
      JavaScript's `value < 1` on it (true for null, "", false, [], "0" and
      0.5; false for undefined, true, "3", "abc", {} and 2.5). */
  datatype RawNumber = Whole(n: int) | NotWhole(lessThanOne: bool)
  {
    /** JavaScript's `value < 1`. */
    predicate BelowOne() {
      if Whole? then n < 1 else lessThanOne
    }
  }

  /** JavaScript truthiness of a parsed number: NaN and 0 are falsy. */
  predicate Truthy(x: Input<int>) {
    x.Value? && x.v != 0
  }

  /** `validator.isInt(raw, { min: m })`. */
  predicate IntAtLeast(x: Input<int>, m: int) {
    x.Value? && x.v >= m
  }

  /** The error responses of the controllers; `reason` names the check that failed. */
  datatype Failure =
    | BadRequest(reason: string)
    | BusyTables(tableIds: seq<int>)
    | Unauthorized(reason: string)
    | Forbidden(reason: string)
    | NotFound(reason: string)
    | Conflict(reason: string)
    | ServerError(reason: string)
  {
    /** The HTTP status code sent with this failure. */
    function Status(): (code: int)
      ensures 400 <= code < 600
      ensures code == 400 <==> (BadRequest? || BusyTables?)
      ensures code == 500 <==> ServerError?
    {
      match this
      case BadRequest(_) => 400
      case BusyTables(_) => 400
      case Unauthorized(_) => 401
      case Forbidden(_) => 403
      case NotFound(_) => 404
      case Conflict(_) => 409
      case ServerError(_) => 500
    }
  }

  datatype Result<T> = Ok(value: T) | Err(error: Failure)

  datatype Outcome = Pass | Fail(error: Failure)
}
