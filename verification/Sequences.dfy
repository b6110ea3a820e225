/** Sequences of sequences laid end to end. */
module Sequences {

  function Flatten<T>(groups: seq<seq<T>>): seq<T> {
    if groups == [] then [] else Flatten(groups[..|groups| - 1]) + groups[|groups| - 1]
  }

  /** Flattening can as well be unfolded from the front. */
  lemma {:induction false} FlattenFront<T>(first: seq<T>, rest: seq<seq<T>>)
    ensures Flatten([first] + rest) == first + Flatten(rest)
    decreases |rest|
  {
    var all := [first] + rest;
    if rest == [] {
      assert all[..0] == [] && all[0] == first;
    } else {
      var last := |rest| - 1;
      assert all[..|all| - 1] == [first] + rest[..last] && all[|all| - 1] == rest[last];
      FlattenFront(first, rest[..last]);
    }
  }
}
