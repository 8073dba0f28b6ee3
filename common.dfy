/** Failure-carrying wrappers and the error conditions the feed engine raises. */
module Common {

  datatype Option<+T> = None | Some(value: T)

  /** The exceptions thrown by the modelled code, one constructor per distinct condition. */
  datatype Error =
    | DuplicateActivity          // AggregatedActivity.append on a member already present
    | EmptyAggregation           // removing the sole member of an aggregation
    | TooManyDigits              // object id or verb id outside its digit budget
    | MissingTime                // serializing an activity without a time
    | NotAnActivity              // comparing an Activity with something else
    | MissingUpdatedAt           // reading a derived id while updated_at is null
    | MissingActivity            // hydrating an id the lookup does not hold
    | MissingActivityIds         // hydrating an item that records no member ids
    | NotAnActivityList          // add_many given something that is not an Activity
    | KeyTypeError               // feed indexed by something that is neither int nor slice
    | NegativeIndex              // feed indexed with a negative index or slice bound
    | NotAFunction               // calling a method a plain object does not have
    | UndeclaredName             // referencing an identifier that is not declared
    | UndefinedMember            // reading a field of an array element that does not exist

  datatype Result<+T> = Ok(value: T) | Err(error: Error) {
    predicate IsFailure() { Err? }
    function PropagateFailure<U>(): Result<U> requires Err? { Err(error) }
    function Extract(): T requires Ok? { value }
  }

  datatype Outcome = Pass | Fail(error: Error) {
    predicate IsFailure() { Fail? }
    function PropagateFailure(): Outcome requires Fail? { this }
  }

  /** The later of an optional time and a time. */
  function Latest(t: Option<nat>, x: nat): (r: nat)
    ensures r >= x && (t.Some? ==> r >= t.value)
    ensures r == x || (t.Some? && r == t.value)
  {
    if t.None? || x > t.value then x else t.value
  }

  /** A missing time compares as 0, as `null` does in a JavaScript comparison with a date. */
  function TimeOrZero(t: Option<nat>): nat { if t.Some? then t.value else 0 }
}
