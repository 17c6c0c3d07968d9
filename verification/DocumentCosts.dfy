/** What the budgets of a pass count: the values and keys of a document in the order of its text, how deep it nests,
    and the paths and grammars of the table. */
module DocumentCosts {
  import opened Budgets
  import opened Structure

  // ----- all values and all keys -----

  /** The document and everything in it. */
  function Everything(j: Json): seq<Json>
    decreases j
  {
    match j
    case Arr(items) => [j] + EveryItem(items)
    case Obj(fields) => [j] + EveryField(fields)
    case _ => [j]
  }

  function EveryItem(items: Items): seq<Json>
    decreases items
  {
    if items.NoItems? then [] else Everything(items.head) + EveryItem(items.tail)
  }

  function EveryField(fields: Fields): seq<Json>
    decreases fields
  {
    if fields.NoFields? then [] else Everything(fields.value) + EveryField(fields.rest)
  }

  /** All keys in it, as they come in the text. */
  function AllKeys(j: Json): seq<string>
    decreases j
  {
    match j
    case Arr(items) => ItemKeys(items)
    case Obj(fields) => FieldKeys(fields)
    case _ => []
  }

  function ItemKeys(items: Items): seq<string>
    decreases items
  {
    if items.NoItems? then [] else AllKeys(items.head) + ItemKeys(items.tail)
  }

  function FieldKeys(fields: Fields): seq<string>
    decreases fields
  {
    if fields.NoFields? then [] else [fields.key] + AllKeys(fields.value) + FieldKeys(fields.rest)
  }

  /** How many bytes are decoded for a value alone: numbers have a fixed width, containers none. */
  function Width(j: Json): nat
  {
    match j
    case Null => 1
    case Bool => 1
    case Num(_, _, _) => 8
    case Str(s) => |s|
    case _ => 0
  }

  function Widths(values: seq<Json>): seq<nat>
  {
    seq(|values|, i requires 0 <= i < |values| => Width(values[i]))
  }

  function Lengths(keys: seq<string>): seq<nat>
  {
    seq(|keys|, i requires 0 <= i < |keys| => |keys[i]|)
  }

  function Sum(ns: seq<nat>): nat
  {
    if |ns| == 0 then 0 else Sum(ns[..|ns| - 1]) + ns[|ns| - 1]
  }

  lemma {:induction false} SumAppend(a: seq<nat>, b: seq<nat>)
    ensures Sum(a + b) == Sum(a) + Sum(b)
  {
    if |b| == 0 {
      assert a + b == a;
    } else {
      SumAppend(a, b[..|b| - 1]);
      assert (a + b)[..|a + b| - 1] == a + b[..|b| - 1];
    }
  }

  // ----- a cost is a count -----

  /** So many values and keys, so many bytes in them, and no more than that in one. */
  ghost predicate Counts(cost: Cost, values: seq<Json>, keys: seq<string>)
  {
    && cost.tokens == |values| + |keys|
    && cost.bytes == Sum(Widths(values)) + Sum(Lengths(keys))
    && forall limit: nat :: cost.widest <= limit <==> NoneWider(values, keys, limit)
  }

  predicate NoneWider(values: seq<Json>, keys: seq<string>, limit: nat)
  {
    && (forall i | 0 <= i < |values| :: Width(values[i]) <= limit)
    && (forall i | 0 <= i < |keys| :: |keys[i]| <= limit)
  }

  lemma NoneWiderAppend(v: seq<Json>, w: seq<Json>, k: seq<string>, l: seq<string>, limit: nat)
    ensures NoneWider(v + w, k + l, limit) <==> NoneWider(v, k, limit) && NoneWider(w, l, limit)
  {
    hide Width;
    assert forall i | 0 <= i < |v| :: (v + w)[i] == v[i];
    assert forall i | 0 <= i < |w| :: (v + w)[|v| + i] == w[i];
    assert forall i | 0 <= i < |k| :: (k + l)[i] == k[i];
    assert forall i | 0 <= i < |l| :: (k + l)[|k| + i] == l[i];
  }

  lemma CountsTogether(a: Cost, v: seq<Json>, k: seq<string>, b: Cost, w: seq<Json>, l: seq<string>)
    requires Counts(a, v, k) && Counts(b, w, l)
    ensures Counts(Together(a, b), v + w, k + l)
  {
    hide Sum, Width, NoneWider;
    assert Widths(v + w) == Widths(v) + Widths(w) && Lengths(k + l) == Lengths(k) + Lengths(l);
    SumAppend(Widths(v), Widths(w));
    SumAppend(Lengths(k), Lengths(l));
    forall limit: nat
      ensures NoneWider(v + w, k + l, limit) <==> NoneWider(v, k, limit) && NoneWider(w, l, limit)
    {
      NoneWiderAppend(v, w, k, l, limit);
    }
  }

  lemma CountsNothing()
    ensures Counts(Cost(0, 0, 0), [], [])
  {
  }

  lemma CountsValue(j: Json)
    ensures Counts(Cost(1, Width(j), Width(j)), [j], [])
  {
    assert Widths([j])[..0] == [] && Widths([j]) == [Width(j)];
    assert Sum([Width(j)]) == Sum([]) + Width(j);
  }

  lemma CountsKey(key: string)
    ensures Counts(Cost(1, |key|, |key|), [], [key])
  {
    assert Lengths([key])[..0] == [] && Lengths([key]) == [|key|];
    assert Sum([|key|]) == Sum([]) + |key|;
  }

  /** The cost of a document is what there is in it. */
  lemma {:induction false} CostMeans(j: Json)
    ensures Counts(CostOf(j), Everything(j), AllKeys(j))
    decreases j
  {
    hide Counts;
    CountsValue(j);
    match j
    case Arr(items) =>
      ItemsCostMeans(items);
      CountsTogether(Cost(1, 0, 0), [j], [], ItemsCost(items), EveryItem(items), ItemKeys(items));
      assert [] + ItemKeys(items) == ItemKeys(items);
    case Obj(fields) =>
      FieldsCostMeans(fields);
      CountsTogether(Cost(1, 0, 0), [j], [], FieldsCost(fields), EveryField(fields), FieldKeys(fields));
      assert [] + FieldKeys(fields) == FieldKeys(fields);
    case _ =>
  }

  lemma {:induction false} ItemsCostMeans(items: Items)
    ensures Counts(ItemsCost(items), EveryItem(items), ItemKeys(items))
    decreases items
  {
    hide Counts;
    CountsNothing();
    match items
    case NoItems =>
    case Item(head, tail) =>
      CostMeans(head);
      ItemsCostMeans(tail);
      CountsTogether(CostOf(head), Everything(head), AllKeys(head), ItemsCost(tail), EveryItem(tail), ItemKeys(tail));
  }

  lemma {:induction false} FieldsCostMeans(fields: Fields)
    ensures Counts(FieldsCost(fields), EveryField(fields), FieldKeys(fields))
    decreases fields
  {
    hide Counts;
    CountsNothing();
    match fields
    case NoFields =>
    case Field(key, value, rest) =>
      CountsKey(key);
      CostMeans(value);
      FieldsCostMeans(rest);
      CountsTogether(Cost(1, |key|, |key|), [], [key], CostOf(value), Everything(value), AllKeys(value));
      assert [] + Everything(value) == Everything(value);
      CountsTogether(
        Together(Cost(1, |key|, |key|), CostOf(value)), Everything(value), [key] + AllKeys(value),
        FieldsCost(rest), EveryField(rest), FieldKeys(rest));
  }

  // ----- depth -----

  /** Every path to a value is shorter than the document is high, and one of them reaches that far. */
  lemma {:induction false} HeightMeans(j: Json) returns (deepest: Path)
    ensures forall path :: ValuesAt(j, path) != [] ==> |path| < Height(j)
    ensures |deepest| + 1 == Height(j) && ValuesAt(j, deepest) != []
    decreases j
  {
    match j {
      case Arr(items) =>
        var inner := ItemsHeightMeans(items);
        deepest := if items.NoItems? then [] else ["[]"] + inner;
        assert items.Item? ==> deepest[1..] == inner;
      case Obj(fields) =>
        deepest := FieldsHeightMeans(fields);
      case _ =>
        deepest := [];
    }
  }

  lemma {:induction false} ItemsHeightMeans(items: Items) returns (deepest: Path)
    ensures forall path :: ItemValues(items, path) != [] ==> |path| < ItemsHeight(items)
    ensures items.Item? ==> |deepest| + 1 == ItemsHeight(items) && ItemValues(items, deepest) != []
    decreases items
  {
    deepest := [];
    if items.Item? {
      var first := HeightMeans(items.head);
      var later := ItemsHeightMeans(items.tail);
      deepest := if Height(items.head) >= ItemsHeight(items.tail) then first else later;
    }
  }

  lemma {:induction false} FieldsHeightMeans(fields: Fields) returns (deepest: Path)
    ensures forall path :: |path| > 0 && FieldValues(fields, path) != [] ==> |path| <= FieldsHeight(fields)
    ensures if fields.NoFields? then deepest == []
            else |deepest| > 0 && |deepest| == FieldsHeight(fields) && FieldValues(fields, deepest) != []
    decreases fields
  {
    deepest := [];
    if fields.Field? {
      var inner := HeightMeans(fields.value);
      var later := FieldsHeightMeans(fields.rest);
      var first := [Segment(fields.key)] + inner;
      assert first[1..] == inner;
      deepest := if Height(fields.value) >= FieldsHeight(fields.rest) then first else later;
    }
  }

  // ----- the table -----

  function Bytes(path: Path): nat
  {
    if |path| == 0 then 0 else |path[0]| + Bytes(path[1..])
  }

  lemma {:induction false} BytesSnoc(path: Path, segment: string)
    ensures Bytes(path + [segment]) == Bytes(path) + |segment|
  {
    if |path| == 0 {
      assert path + [segment] == [segment] && [segment][1..] == [];
    } else {
      BytesSnoc(path[1..], segment);
      assert (path + [segment])[1..] == path[1..] + [segment];
    }
  }

  lemma {:induction false} PathChargeMeans(path: Path)
    ensures PathCharge(path) == 384 + 96 * |path| + 3 * Bytes(path)
  {
    if |path| > 0 {
      var n := |path| - 1;
      PathChargeMeans(path[..n]);
      BytesSnoc(path[..n], path[n]);
      assert path == path[..n] + [path[n]];
    }
  }

  /** A node is charged for its path, 18 bytes for every decimal grammar, which is one byte wide, and 22 for every
      timestamp grammar, which is three. */
  lemma ChargesMean(nodes: Nodes, path: Path, stats: Stats)
    requires path !in nodes
    ensures Retained(nodes[path := stats]) == Retained(nodes)
      + 384 + 96 * |path| + 3 * Bytes(path)
      + (2 * 1 + 16) * (|stats.decimalNumbers| + |stats.decimalStrings|) + (2 * 3 + 16) * |stats.timestamps|
  {
    hide Retained, PathCharge;
    PathChargeMeans(path);
    RetainedWithout(nodes[path := stats], path);
    assert nodes[path := stats] - {path} == nodes;
  }
}
