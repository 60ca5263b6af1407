/**
 * The part of JavaScript's `Array.prototype.splice` that the row editor uses:
 * `splice(start, 1)` removes at most one element. A negative `start` counts
 * back from the end of the array; a start at or past the end removes nothing.
 */
module JsArray {

  /**
   * The position at which `splice(start, …)` begins on an array of length
   * `len`. It lies inside the array, so that `splice(start, 1)` removes an
   * element, exactly when the array is not empty and `start` is before its end.
   */
  function SpliceStart(len: nat, start: int): (k: nat)
    ensures k <= len
    ensures 0 <= start <= len ==> k == start
    ensures k < len <==> len > 0 && start < len
  {
    if start < 0 then (if len + start < 0 then 0 else len + start)
    else if start > len then len
    else start
  }

  /**
   * The array that `splice(start, 1)` leaves behind: exactly the element at
   * the normalised start is removed, the ones before it stay where they were
   * and the ones after it move down by one.
   */
  function SpliceOne<T>(s: seq<T>, start: int): (r: seq<T>)
    ensures SpliceStart(|s|, start) < |s| ==>
              && |r| == |s| - 1
              && (forall j :: 0 <= j < SpliceStart(|s|, start) ==> r[j] == s[j])
              && (forall j :: SpliceStart(|s|, start) <= j < |r| ==> r[j] == s[j + 1])
              && multiset(r) + multiset{s[SpliceStart(|s|, start)]} == multiset(s)
    ensures SpliceStart(|s|, start) == |s| ==> r == s
  {
    var k := SpliceStart(|s|, start);
    if k < |s| then
      assert s == s[..k] + [s[k]] + s[k + 1..];
      s[..k] + s[k + 1..]
    else
      s
  }
}
