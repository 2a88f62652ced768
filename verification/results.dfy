/** Failure-carrying values shared by every part of the model, and the
    first-match search that stands for JavaScript's `Array.prototype.find`. */
module Results {

  /** A value that may be missing: `null`/`undefined` in the front end. */
  datatype Option<+T> = None | Some(value: T)

  /** The outcome of an operation that either delivers a value or an error. */
  datatype Result<+T, +E> = Ok(value: T) | Err(error: E)

  /** Index of the first element of `s` satisfying `p`, if any
      (the index `Array.prototype.find` stops at). */
  function FindFirst<T>(s: seq<T>, p: T -> bool): (r: Option<nat>)
    ensures r.Some? ==> r.value < |s| && p(s[r.value])
    ensures r.Some? ==> forall j :: 0 <= j < r.value ==> !p(s[j])
    ensures r.None? <==> forall j :: 0 <= j < |s| ==> !p(s[j])
  {
    if |s| == 0 then None
    else if p(s[0]) then Some(0)
    else match FindFirst(s[1..], p)
         case None => None
         case Some(k) => Some(k + 1)
  }
}
