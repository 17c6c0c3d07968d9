/** Observed JSON shapes and the in-place merge that folds array items into one shape. */
module Shapes {
  import opened Options

  datatype Shape =
    | Null | Boolean | Number(integer: bool, signed: bool) | String
    | Array(items: Option<Shape>) | Object(fields: map<string, Shape>) | Mixed

  function Merge(a: Shape, b: Shape): Shape
    decreases a
  {
    if a.Object? && b.Object? then
      Object(map k | k in a.fields.Keys + b.fields.Keys ::
        if k !in a.fields then b.fields[k]
        else if k !in b.fields then a.fields[k]
        else Merge(a.fields[k], b.fields[k]))
    else if a.Array? && b.Array? then
      if b.items.None? then a
      else if a.items.None? then b
      else Array(Some(Merge(a.items.value, b.items.value)))
    else if a == b then a
    else Mixed
  }

  lemma {:induction false} MergeCommutative(a: Shape, b: Shape)
    ensures Merge(a, b) == Merge(b, a)
    decreases a
  {
    if a.Object? && b.Object? {
      forall k | k in a.fields && k in b.fields
        ensures Merge(a.fields[k], b.fields[k]) == Merge(b.fields[k], a.fields[k])
      {
        MergeCommutative(a.fields[k], b.fields[k]);
      }
    } else if a.Array? && b.Array? && a.items.Some? && b.items.Some? {
      MergeCommutative(a.items.value, b.items.value);
    }
  }

  lemma {:induction false} MergeAssociative(a: Shape, b: Shape, c: Shape)
    ensures Merge(Merge(a, b), c) == Merge(a, Merge(b, c))
    decreases a
  {
    if a.Object? && b.Object? && c.Object? {
      forall k | k in a.fields && k in b.fields && k in c.fields ensures AssociatesAt(a, b, c, k) {
        MergeAssociative(a.fields[k], b.fields[k], c.fields[k]);
      }
      ObjectsAssociate(a, b, c);
    } else if a.Array? && b.Array? && c.Array? {
      if a.items.Some? && b.items.Some? && c.items.Some? {
        MergeAssociative(a.items.value, b.items.value, c.items.value);
      }
    } else {
      OthersAssociate(a, b, c);
    }
  }

  predicate AssociatesAt(a: Shape, b: Shape, c: Shape, k: string)
    requires a.Object? && b.Object? && c.Object? && k in a.fields && k in b.fields && k in c.fields
  {
    Merge(Merge(a.fields[k], b.fields[k]), c.fields[k]) == Merge(a.fields[k], Merge(b.fields[k], c.fields[k]))
  }

  lemma ObjectsAssociate(a: Shape, b: Shape, c: Shape)
    requires a.Object? && b.Object? && c.Object?
    requires forall k | k in a.fields && k in b.fields && k in c.fields :: AssociatesAt(a, b, c, k)
    ensures Merge(Merge(a, b), c) == Merge(a, Merge(b, c))
  {
    var left, right := Merge(Merge(a, b), c).fields, Merge(a, Merge(b, c)).fields;
    assert left.Keys == right.Keys;
    forall k | k in left ensures left[k] == right[k] {
      if k in a.fields && k in b.fields && k in c.fields {
        assert AssociatesAt(a, b, c, k);
      }
    }
  }

  lemma OthersAssociate(a: Shape, b: Shape, c: Shape)
    requires !(a.Object? && b.Object? && c.Object?) && !(a.Array? && b.Array? && c.Array?)
    ensures Merge(Merge(a, b), c) == Merge(a, Merge(b, c))
  {
  }

  lemma {:induction false} MergeIdempotent(a: Shape)
    ensures Merge(a, a) == a
  {
    if a.Object? {
      forall k | k in a.fields ensures Merge(a.fields[k], a.fields[k]) == a.fields[k] { MergeIdempotent(a.fields[k]); }
    } else if a.Array? && a.items.Some? {
      MergeIdempotent(a.items.value);
    }
  }

  /** Mixed absorbs, an unobserved item is neutral among arrays, objects merge field-wise. */
  lemma MergeUnits(a: Shape, key: string)
    ensures Merge(Mixed, a) == Mixed && Merge(a, Mixed) == Mixed
    ensures a.Array? ==> Merge(Array(None), a) == a && Merge(a, Array(None)) == a
    ensures Merge(Object(map[]), a) == (if a.Object? then a else Mixed)
    ensures forall b: Shape | a.Object? && b.Object? ::
      Merge(a, b).Object? && Merge(a, b).fields.Keys == a.fields.Keys + b.fields.Keys
  {
  }

  // ----- the in-place form -----

  /** The source's `merge`: fields of the incoming object one by one, in any order. */
  method MergeInto(target: Shape, incoming: Shape) returns (merged: Shape)
    ensures merged == Merge(target, incoming)
    decreases target
  {
    if target.Object? && incoming.Object? {
      var left := target.fields;
      var right := incoming.fields;
      var done: set<string> := {};
      while done != right.Keys
        invariant done <= right.Keys
        invariant left.Keys == target.fields.Keys + done
        invariant forall k | k in left.Keys - done :: left[k] == target.fields[k]
        invariant forall k | k in done :: left[k] == Merge(target, incoming).fields[k]
        decreases right.Keys - done
      {
        assert right.Keys - done != {};
        var key :| key in right.Keys - done;
        if key in left {
          var shape := MergeInto(target.fields[key], right[key]);
          left := left[key := shape];
        } else {
          left := left[key := right[key]];
        }
        done := done + {key};
      }
      merged := Object(left);
      assert left == Merge(target, incoming).fields;
    } else if target.Array? && incoming.Array? {
      if incoming.items.None? {
        merged := target;
      } else if target.items.None? {
        merged := Array(incoming.items);
      } else {
        var items := MergeInto(target.items.value, incoming.items.value);
        merged := Array(Some(items));
      }
    } else if target == incoming {
      merged := target;
    } else {
      merged := Mixed;
    }
  }

  // ----- folding the items of an array -----

  function MergeOption(a: Option<Shape>, b: Option<Shape>): Option<Shape>
  {
    if a.None? then b else if b.None? then a else Some(Merge(a.value, b.value))
  }

  /** The item fold of `visit_seq`, from the left. */
  function FoldItems(shape: Option<Shape>, items: seq<Shape>): Option<Shape>
    decreases |items|
  {
    if |items| == 0 then shape else FoldItems(MergeOption(shape, Some(items[0])), items[1..])
  }

  lemma MergeOptionLaws(a: Option<Shape>, b: Option<Shape>, c: Option<Shape>)
    ensures MergeOption(a, b) == MergeOption(b, a)
    ensures MergeOption(MergeOption(a, b), c) == MergeOption(a, MergeOption(b, c))
  {
    if a.Some? && b.Some? {
      MergeCommutative(a.value, b.value);
      if c.Some? { MergeAssociative(a.value, b.value, c.value); }
    }
  }

  lemma {:induction false} FoldFrom(shape: Option<Shape>, items: seq<Shape>)
    ensures FoldItems(shape, items) == MergeOption(shape, FoldItems(None, items))
    decreases |items|
  {
    hide Merge;
    if |items| > 0 {
      FoldFrom(MergeOption(shape, Some(items[0])), items[1..]);
      FoldFrom(Some(items[0]), items[1..]);
      MergeOptionLaws(shape, Some(items[0]), FoldItems(None, items[1..]));
    }
  }

  /** Grouping does not matter. */
  lemma {:induction false} FoldAppend(a: seq<Shape>, b: seq<Shape>)
    ensures FoldItems(None, a + b) == MergeOption(FoldItems(None, a), FoldItems(None, b))
    decreases |a|
  {
    hide Merge;
    if |a| == 0 {
      assert a + b == b;
    } else {
      assert (a + b)[1..] == a[1..] + b;
      FoldFrom(Some(a[0]), a[1..] + b);
      FoldFrom(Some(a[0]), a[1..]);
      FoldAppend(a[1..], b);
      MergeOptionLaws(Some(a[0]), FoldItems(None, a[1..]), FoldItems(None, b));
    }
  }

  lemma FoldWithout(items: seq<Shape>, i: nat)
    requires i < |items|
    ensures FoldItems(None, items) == MergeOption(Some(items[i]), FoldItems(None, items[..i] + items[i + 1..]))
  {
    hide Merge, FoldItems;
    assert items == items[..i] + ([items[i]] + items[i + 1..]);
    FoldAppend(items[..i], [items[i]] + items[i + 1..]);
    FoldAppend([items[i]], items[i + 1..]);
    FoldAppend(items[..i], items[i + 1..]);
    SingleFold(items[i]);
    var x, y, z := FoldItems(None, items[..i]), Some(items[i]), FoldItems(None, items[i + 1..]);
    MergeOptionLaws(x, y, z);
    MergeOptionLaws(y, x, z);
  }

  lemma SingleFold(shape: Shape)
    ensures FoldItems(None, [shape]) == Some(shape)
  {
  }

  lemma WithoutOne(items: seq<Shape>, i: nat)
    requires i < |items|
    ensures multiset(items[..i] + items[i + 1..]) == multiset(items) - multiset{items[i]}
  {
    assert items == items[..i] + [items[i]] + items[i + 1..];
  }

  /** The order of the items does not matter. */
  lemma {:induction false} FoldPermutation(a: seq<Shape>, b: seq<Shape>)
    requires multiset(a) == multiset(b)
    ensures FoldItems(None, a) == FoldItems(None, b)
    decreases |a|
  {
    hide Merge, FoldItems;
    assert |a| == |multiset(a)| == |multiset(b)| == |b|;
    if |a| == 0 {
      assert a == b;
    } else {
      assert a[0] in multiset(b);
      var i :| 0 <= i < |b| && b[i] == a[0];
      FoldWithout(a, 0);
      FoldWithout(b, i);
      WithoutOne(a, 0);
      WithoutOne(b, i);
      FoldPermutation(a[..0] + a[1..], b[..i] + b[i + 1..]);
    }
  }
}
