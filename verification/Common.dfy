/** Small types shared by every component of the model. */
module Common {

  /** The Go code's nil-or-value pointers, slices and function fields. */
  datatype Option<+T> = None | Some(value: T)

  /** `0, 1, ..., n-1`. */
  function Upto(n: nat): (r: seq<nat>)
    ensures |r| == n
    ensures forall i :: 0 <= i < n ==> r[i] == i
  {
    seq(n, i => i)
  }
}
