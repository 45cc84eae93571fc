/**
 Shared vocabulary: optional values, results, and the truthiness test that
 both the Python backend (`not all([...])`, `if not vehicle_id`) and the
 JavaScript generator (`mode || "Unknown"`) apply to optional string inputs.
 */
module Common {

  /** A value that may be absent: `None` stands for Python's `None` and
      JavaScript's `undefined`. */
  datatype Option<+T> = None | Some(value: T) {

    /** The value, or `default` when absent (Python's `dict.get(key, default)`). */
    function GetOr(default: T): T
    {
      match this
      case Some(v) => v
      case None => default
    }
  }

  /** Either a value or the error that ended the computation. */
  datatype Result<+T, +E> = Ok(value: T) | Err(error: E)

  /** Truthiness of an optional string, identical in Python and JavaScript:
      an absent value and the empty string are falsy, every other string is
      truthy (so "0" and " " are truthy). */
  predicate Truthy(s: Option<string>)
  {
    s.Some? && s.value != []
  }

  /** Python's `all(xs)` over optional strings, read left to right: every
      element is truthy. */
  function AllTruthy(xs: seq<Option<string>>): (r: bool)
    ensures r <==> forall i :: 0 <= i < |xs| ==> Truthy(xs[i])
  {
    xs == [] || (Truthy(xs[0]) && AllTruthy(xs[1..]))
  }

  /** Python's `float(text)`: the number, or `None` where it raises. */
  type Parser = string -> Option<real>
}
