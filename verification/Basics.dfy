/** What several components need and none of them owns. */
module Basics {

  datatype Option<+T> = None | Some(value: T)

  function Repeat<T>(n: nat, x: T): (s: seq<T>)
    ensures |s| == n && forall i {:trigger s[i]} :: 0 <= i < n ==> s[i] == x
  {
    seq(n, _ => x)
  }
}
