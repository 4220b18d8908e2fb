/** Shared vocabulary: optional values, outcomes and points in time. */
module Base {

  datatype Option<+T> = None | Some(value: T)

  /** The exceptions the modelled code raises. Raising one rolls its transaction back. */
  datatype Error = NotFound | Validation | Conflict | Integrity | QuotaExceeded | BadQuery

  datatype Outcome<+T> = Ok(result: T) | Err(error: Error)

  /** Primary keys, and whatever else is only compared. */
  type Id = nat

  /** Microseconds since the Unix epoch, the resolution of a Python `datetime`. */
  type Time = int

  const MINUTE: Time := 60_000_000
  const DAY: Time := 24 * 60 * MINUTE

  function Max(a: int, b: int): int { if a < b then b else a }

  predicate Distinct<T(==)>(xs: seq<T>) { forall i, j | 0 <= i < j < |xs| :: xs[i] != xs[j] }

  function FirstIndex<T>(xs: seq<T>, wanted: T -> bool): (i: nat)
    ensures i <= |xs| && (forall j | 0 <= j < i :: !wanted(xs[j])) && (i < |xs| ==> wanted(xs[i]))
  {
    if xs == [] || wanted(xs[0]) then 0 else 1 + FirstIndex(xs[1..], wanted)
  }

  /** The first element that is wanted, if any. */
  function First<T>(xs: seq<T>, wanted: T -> bool): (r: Option<T>)
    ensures r.Some? ==> exists i :: 0 <= i < |xs| && xs[i] == r.value && wanted(xs[i]) && forall j | 0 <= j < i :: !wanted(xs[j])
    ensures r.None? <==> forall x | x in xs :: !wanted(x)
  {
    var i := FirstIndex(xs, wanted);
    if i < |xs| then Some(xs[i]) else None
  }
}
