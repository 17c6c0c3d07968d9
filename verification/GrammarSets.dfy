/** The grammars observed at a path: a sorted list without repetition, charged to a budget as it grows. */
module GrammarSets {
  import opened Options

  /** Grammars are members of a closed enumeration; a number is its place in the order. */
  class GrammarSet {
    var observed: Option<seq<nat>>

    constructor ()
      ensures Valid() && Contents() == {} && observed == None
    {
      observed := None;
    }

    ghost predicate Valid()
      reads this
    {
      observed.Some? ==> observed.value != [] && Ascending(observed.value)
    }

    ghost function Contents(): set<nat>
      reads this
    {
      if observed.None? then {} else Members(observed.value)
    }

    /** Adds a grammar; a new one costs a fixed amount, and over the maximum nothing is added. */
    method Observe(grammar: nat, cost: nat, retained: nat, maximum: nat) returns (r: Option<nat>)
      requires Valid()
      modifies this
      ensures Valid()
      ensures r.Some? <==> grammar in old(Contents()) || retained + cost <= maximum
      ensures r.Some? ==>
        && Contents() == old(Contents()) + {grammar}
        && r.value == (if grammar in old(Contents()) then retained else retained + cost)
      ensures r.None? ==> observed == old(observed)
    {
      var position := 0;
      if observed.Some? {
        var found: bool;
        found, position := BinarySearch(observed.value, grammar);
        if found {
          return Some(retained);
        }
      }
      if retained + cost > maximum {
        return None;
      }
      if observed.None? {
        assert [grammar][0] == grammar;
        observed := Some([grammar]);
      } else {
        InsertKeeps(observed.value, position, grammar);
        observed := Some(observed.value[..position] + [grammar] + observed.value[position..]);
      }
      return Some(retained + cost);
    }
  }

  ghost predicate Ascending(s: seq<nat>)
  {
    forall i, j :: 0 <= i < j < |s| ==> s[i] < s[j]
  }

  ghost function Members(s: seq<nat>): set<nat>
  {
    set i | 0 <= i < |s| :: s[i]
  }

  /** The place of a value, or the place where it belongs. */
  method BinarySearch(s: seq<nat>, x: nat) returns (found: bool, position: nat)
    requires Ascending(s)
    ensures position <= |s|
    ensures found <==> x in Members(s)
    ensures found ==> position < |s| && s[position] == x
    ensures !found ==> (forall i :: 0 <= i < position ==> s[i] < x) && forall i :: position <= i < |s| ==> x < s[i]
  {
    var low, high := 0, |s|;
    while low < high
      invariant 0 <= low <= high <= |s|
      invariant forall i :: 0 <= i < low ==> s[i] < x
      invariant forall i :: high <= i < |s| ==> x < s[i]
    {
      var middle := (low + high) / 2;
      if s[middle] == x {
        return true, middle;
      } else if s[middle] < x {
        low := middle + 1;
      } else {
        high := middle;
      }
    }
    return false, low;
  }

  lemma InsertKeeps(s: seq<nat>, position: nat, x: nat)
    requires Ascending(s) && position <= |s|
    requires (forall i :: 0 <= i < position ==> s[i] < x) && forall i :: position <= i < |s| ==> x < s[i]
    ensures var longer := s[..position] + [x] + s[position..];
      Ascending(longer) && Members(longer) == Members(s) + {x}
  {
    var longer := s[..position] + [x] + s[position..];
    assert longer[position] == x;
    assert forall i :: 0 <= i < position ==> longer[i] == s[i];
    assert forall i :: position < i < |longer| ==> longer[i] == s[i - 1];
    forall y ensures y in Members(longer) <==> y in Members(s) + {x} {
      if y in Members(s) {
        var i :| 0 <= i < |s| && s[i] == y;
        assert longer[if i < position then i else i + 1] == y;
      }
    }
  }
}
