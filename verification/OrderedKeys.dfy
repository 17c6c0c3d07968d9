/** The least key of a finite set: the order in which an ordered map yields its entries. */
module OrderedKeys {
  ghost predicate IsLeast(keys: set<int>, key: int)
  {
    key in keys && forall k :: k in keys ==> key <= k
  }

  lemma {:induction false} HasLeast(keys: set<int>)
    requires keys != {}
    ensures exists key :: IsLeast(keys, key)
    decreases |keys|
  {
    assert exists k :: k in keys by {
      assert !(forall k :: k !in keys) || keys == {};
    }
    var member :| member in keys;
    var rest := keys - {member};
    assert keys == rest + {member};
    if rest == {} {
      assert IsLeast(keys, member);
    } else {
      HasLeast(rest);
      var least :| IsLeast(rest, least);
      assert IsLeast(keys, if member < least then member else least);
    }
  }

  ghost function Least(keys: set<int>): (key: int)
    requires keys != {}
    ensures IsLeast(keys, key)
  {
    HasLeast(keys);
    var key :| IsLeast(keys, key);
    key
  }
}
