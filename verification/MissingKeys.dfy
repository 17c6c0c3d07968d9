/** What the summary of a document says of missing keys. */
module MissingKeys {
  import opened Profile
  import opened Structure

  /** How many of the values are objects without this key. */
  function Lacking(values: seq<Json>, key: string): nat
  {
    if |values| == 0 then 0
    else (if values[0].Obj? && key !in Keys(values[0].fields) then 1 else 0) + Lacking(values[1..], key)
  }

  /** How many of them have it. */
  function Having(values: seq<Json>, key: string): nat
  {
    if |values| == 0 then 0
    else (if values[0].Obj? && key in Keys(values[0].fields) then 1 else 0) + Having(values[1..], key)
  }

  lemma {:induction false} EachHasOrLacks(values: seq<Json>, key: string)
    ensures Having(values, key) + Lacking(values, key) == HowMany(values, ObjectKind)
  {
    if |values| > 0 { EachHasOrLacks(values[1..], key); }
  }

  /** The values one segment further on, of all these values. */
  function Further(values: seq<Json>, segment: string): seq<Json>
  {
    if |values| == 0 then [] else ValuesAt(values[0], [segment]) + Further(values[1..], segment)
  }

  lemma FurtherCons(v: Json, rest: seq<Json>, segment: string)
    ensures Further([v] + rest, segment) == ValuesAt(v, [segment]) + Further(rest, segment)
  {
    hide ValuesAt;
    assert ([v] + rest)[1..] == rest;
  }

  lemma FurtherNone(segment: string)
    ensures Further([], segment) == []
  {
  }

  lemma {:induction false} FurtherAppend(a: seq<Json>, b: seq<Json>, segment: string)
    ensures Further(a + b, segment) == Further(a, segment) + Further(b, segment)
  {
    hide ValuesAt, Further;
    if |a| == 0 {
      assert a == [] && a + b == b;
      FurtherNone(segment);
    } else {
      var rest := a[1..];
      FurtherAppend(rest, b, segment);
      FurtherCons(a[0], rest, segment);
      FurtherCons(a[0], rest + b, segment);
      assert a == [a[0]] + rest && a + b == [a[0]] + (rest + b);
    }
  }

  lemma FurtherOne(v: Json, segment: string)
    ensures Further([v], segment) == ValuesAt(v, [segment])
  {
    hide ValuesAt;
    assert [v][1..] == [] && Further([], segment) == [];
  }

  lemma {:induction false} ValuesFurther(j: Json, path: Path, segment: string)
    ensures ValuesAt(j, path + [segment]) == Further(ValuesAt(j, path), segment)
    decreases j
  {
    if path == [] {
      assert path + [segment] == [segment];
      FurtherOne(j, segment);
    } else {
      assert (path + [segment])[0] == path[0] && (path + [segment])[1..] == path[1..] + [segment];
      match j
      case Arr(items) => ItemsFurther(items, path[1..], segment);
      case Obj(fields) => FieldsFurther(fields, path, segment);
      case _ =>
    }
  }

  lemma {:induction false} ItemsFurther(items: Items, path: Path, segment: string)
    ensures ItemValues(items, path + [segment]) == Further(ItemValues(items, path), segment)
    decreases items
  {
    match items
    case NoItems =>
    case Item(head, tail) =>
      ValuesFurther(head, path, segment);
      ItemsFurther(tail, path, segment);
      FurtherAppend(ValuesAt(head, path), ItemValues(tail, path), segment);
  }

  lemma {:induction false} FieldsFurther(fields: Fields, path: Path, segment: string)
    requires |path| > 0
    ensures FieldValues(fields, path + [segment]) == Further(FieldValues(fields, path), segment)
    decreases fields
  {
    assert (path + [segment])[0] == path[0] && (path + [segment])[1..] == path[1..] + [segment];
    match fields
    case NoFields =>
    case Field(key, value, rest) =>
      ValuesFurther(value, path[1..], segment);
      FieldsFurther(rest, path, segment);
      var here := if Segment(key) == path[0] then ValuesAt(value, path[1..]) else [];
      FurtherAppend(here, FieldValues(rest, path), segment);
  }

  // ----- one value for every key -----

  predicate AllClean(values: seq<Json>)
  {
    forall i | 0 <= i < |values| :: NoDuplicateKeys(values[i])
  }

  lemma {:induction false} ValuesAreClean(j: Json, path: Path)
    requires NoDuplicateKeys(j)
    ensures AllClean(ValuesAt(j, path))
    decreases j
  {
    if path != [] {
      match j
      case Arr(items) => ItemsAreClean(items, path[1..]);
      case Obj(fields) => FieldsAreClean(fields, path);
      case _ =>
    }
  }

  lemma {:induction false} ItemsAreClean(items: Items, path: Path)
    requires NoDuplicatesInItems(items)
    ensures AllClean(ItemValues(items, path))
    decreases items
  {
    match items
    case NoItems =>
    case Item(head, tail) =>
      ValuesAreClean(head, path);
      ItemsAreClean(tail, path);
  }

  lemma {:induction false} FieldsAreClean(fields: Fields, path: Path)
    requires NoDuplicatesInFields(fields) && |path| > 0
    ensures AllClean(FieldValues(fields, path))
    decreases fields
  {
    match fields
    case NoFields =>
    case Field(_, value, rest) =>
      ValuesAreClean(value, path[1..]);
      FieldsAreClean(rest, path);
  }

  lemma {:induction false} OneFieldValue(fields: Fields, key: string)
    requires NoDuplicatesInFields(fields)
    ensures |FieldValues(fields, [Segment(key)])| == if key in Keys(fields) then 1 else 0
    decreases fields
  {
    hide Segment;
    match fields
    case NoFields =>
    case Field(name, _, rest) =>
      SegmentInjective(name, key);
      OneFieldValue(rest, key);
  }

  lemma {:induction false} HavingMeans(values: seq<Json>, key: string)
    requires AllClean(values)
    ensures |Further(values, Segment(key))| == Having(values, key)
  {
    hide Segment;
    if |values| > 0 {
      HavingMeans(values[1..], key);
      SegmentInjective(key, key);
      assert NoDuplicateKeys(values[0]);
      if values[0].Obj? { OneFieldValue(values[0].fields, key); }
    }
  }

  /** In a document without repeated keys a key is missing at a path as often as there are objects without it, and
      array items are never missing, nor is the document. */
  lemma MissingMeans(j: Json, path: Path, key: string)
    requires NoDuplicateKeys(j)
    ensures Missing(VisitNodes(map[], [], j), path + [Segment(key)]) == Lacking(ValuesAt(j, path), key)
    ensures Missing(VisitNodes(map[], [], j), path + ["[]"]) == 0 == Missing(VisitNodes(map[], [], j), [])
  {
    hide VisitNodes, Summary, Segment, ValuesAt;
    var values, longer := ValuesAt(j, path), path + [Segment(key)];
    assert longer[..|longer| - 1] == path && longer[|longer| - 1] == Segment(key);
    SegmentInjective(key, key);
    NodesMeanValues(j, path);
    NodesMeanValues(j, longer);
    ValuesFurther(j, path, Segment(key));
    ValuesAreClean(j, path);
    HavingMeans(values, key);
    EachHasOrLacks(values, key);
    SummaryCounts(values, ObjectKind);
    SummaryCounts(ValuesAt(j, longer), ObjectKind);
  }
}
