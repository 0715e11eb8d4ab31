/** Small types and functions shared by the other modules. */
module Basics {

  type byte = b: nat | b < 256

  datatype Option<+T> = None | Some(value: T)

  function Max(a: int, b: int): int {
    if a >= b then a else b
  }

  function Reversed<T>(s: seq<T>): (r: seq<T>)
    ensures |r| == |s| && forall i :: 0 <= i < |s| ==> r[i] == s[|s| - 1 - i]
  {
    if s == [] then [] else Reversed(s[1..]) + [s[0]]
  }

  lemma ReversedAppend<T>(s: seq<T>, x: T)
    ensures Reversed(s + [x]) == [x] + Reversed(s)
  {
    var r := Reversed(s + [x]);
    assert forall i :: 0 <= i < |r| ==> r[i] == ([x] + Reversed(s))[i];
  }
}
