/** Places in a sequence, in ascending order, and what stands there. */
module Places {

  predicate Increasing(at: seq<nat>) {
    forall i, j :: 0 <= i < j < |at| ==> at[i] < at[j]
  }

  predicate Inside(at: seq<nat>, n: nat) {
    forall k :: 0 <= k < |at| ==> at[k] < n
  }

  function Picked<T>(s: seq<T>, at: seq<nat>): (r: seq<T>)
    requires Inside(at, |s|)
  {
    seq(|at|, k requires 0 <= k < |at| => s[at[k]])
  }
}
