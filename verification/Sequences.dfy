/** Two operations on sequences that several modules share. */
module Sequences {
  import opened Options

  /** The position of a character from `start` on, as the source's `position` finds it. */
  function Position(alphabet: string, c: char, start: nat): (r: Option<nat>)
    requires start <= |alphabet|
    ensures r.Some? ==> start <= r.value < |alphabet| && alphabet[r.value] == c
    ensures r.None? ==> forall i | start <= i < |alphabet| :: alphabet[i] != c
    decreases |alphabet| - start
  {
    if start == |alphabet| then None
    else if alphabet[start] == c then Some(start)
    else Position(alphabet, c, start + 1)
  }

  function Repeat<T>(value: T, count: nat): (all: seq<T>)
    ensures |all| == count && forall i | 0 <= i < count :: all[i] == value
  {
    seq(count, _ => value)
  }
}
