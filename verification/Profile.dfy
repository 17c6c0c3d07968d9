/** The decision on a message transcript, made from the one-pass structural summary only. */
module Profile {
  import opened Budgets
  import opened Calendar
  import opened Decimal
  import opened Options
  import opened Structure
  import Shapes
  import opened Snowflake

  datatype TranscriptError = UnsupportedProfile | InvalidTranscript

  // ----- the completed report -----

  /** An unobserved item shape is reported as `Mixed`. */
  function Report(shape: Shape): Shape
  {
    match shape
    case Array(items) => Shapes.Array(Some(if items.None? then Shapes.Mixed else Report(items.value)))
    case Object(fields) => Shapes.Object(map k | k in fields :: Report(fields[k]))
    case _ => shape
  }

  datatype Entry = Entry(shape: Shape, nodes: Nodes, missing: map<Path, nat>)

  /** Objects at the parent that lack this key; array items are never missing. */
  function Missing(nodes: Nodes, path: Path): nat
  {
    if path != [] && path[|path| - 1] != "[]" then
      var parents, here := At(nodes, path[..|path| - 1]).objects, At(nodes, path).occurrences;
      if here > parents then 0 else parents - here
    else 0
  }

  function Completed(shape: Shape, nodes: Nodes): Entry
  {
    Entry(Report(shape), nodes, map path | path in nodes :: Missing(nodes, path))
  }

  function EntryOf(j: Json): Entry
  {
    Completed(ShapeOf(j), VisitNodes(map[], [], j))
  }

  /** The budgets last for the whole document: nested values, charged table, tokens, and the decoded bytes and
      widest scalar of every item of a root array, or of the document. */
  ghost predicate WithinBudgets(limits: ProbeLimits, tokens: nat, j: Json)
  {
    && Height(j) <= limits.maxDepth
    && Retained(VisitNodes(map[], [], j)) <= limits.maxRetained
    && tokens + CostOf(j).tokens <= limits.budgets.maxTokens
    && if j.Arr? then EachFits(limits.budgets, j.items)
       else CostOf(j).bytes <= limits.budgets.maxDecoded && CostOf(j).widest <= limits.budgets.maxScalar
  }

  /** The probe of the source on a whole document, after so many tokens of others. */
  method InspectDocument(j: Json, limits: ProbeLimits, tokens: nat)
    returns (r: Result<Entry, StructureError>, used: nat)
    requires tokens <= limits.budgets.maxTokens
    ensures r.Ok? <==> NoDuplicateKeys(j) && WithinBudgets(limits, tokens, j)
    ensures r == Err(DuplicateJsonKey) ==> !NoDuplicateKeys(j)
    ensures r.Ok? ==> r.value == EntryOf(j) && used == tokens + CostOf(j).tokens
  {
    hide Retained, VisitNodes;
    var meter := new Meter(limits.budgets, tokens);
    var prober := new Prober(limits, meter);
    var shape := prober.Visit(j, [], 1);
    used := meter.tokens;
    if shape.Err? {
      return Err(shape.error), used;
    }
    return Ok(Completed(shape.value, prober.nodes)), used;
  }

  // ----- the decision -----

  const UNSIGNED := Shapes.Number(true, false)

  function Required(): seq<(string, Shape)>
  {
    [("ID", UNSIGNED), ("Timestamp", Shapes.String), ("Contents", Shapes.String), ("Attachments", Shapes.String)]
  }

  predicate KeyOk(entry: Entry, fields: map<string, Shape>, key: string, expected: Shape)
  {
    var path := ["[]", key];
    && key in fields && fields[key] == expected
    && path in entry.nodes && path in entry.missing && entry.missing[path] == 0
    && (key == "ID" ==> entry.nodes[path].decimalNumbers == {CanonicalPositiveU64Decimal})
    && (key == "Timestamp" ==> entry.nodes[path].timestamps == {SENT_MESSAGE_TIME})
  }

  /** The source's `transcript`. */
  method Transcript(entry: Entry) returns (r: Result<(), TranscriptError>)
    ensures r == Decision(entry)
  {
    if !entry.shape.Array? {
      return Err(UnsupportedProfile);
    }
    if ["[]"] !in entry.nodes {
      return Ok(());
    }
    if entry.shape.items.None? || !entry.shape.items.value.Object? {
      return Err(UnsupportedProfile);
    }
    var required := Required();
    for i := 0 to |required|
      invariant forall k | 0 <= k < i :: KeyOk(entry, entry.shape.items.value.fields, required[k].0, required[k].1)
    {
      if !KeyOk(entry, entry.shape.items.value.fields, required[i].0, required[i].1) {
        return Err(InvalidTranscript);
      }
    }
    return Ok(());
  }

  function Decision(entry: Entry): Result<(), TranscriptError>
  {
    if !entry.shape.Array? then Err(UnsupportedProfile)
    else if ["[]"] !in entry.nodes then Ok(())
    else if entry.shape.items.None? || !entry.shape.items.value.Object? then Err(UnsupportedProfile)
    else if exists k | 0 <= k < |Required()| ::
              !KeyOk(entry, entry.shape.items.value.fields, Required()[k].0, Required()[k].1)
      then Err(InvalidTranscript)
    else Ok(())
  }

  // ----- what the decision means -----

  function Lookup(fields: Fields, key: string): Option<Json>
  {
    match fields
    case NoFields => None
    case Field(k, value, rest) => if k == key then Some(value) else Lookup(rest, key)
  }

  predicate TextAt(fields: Fields, key: string)
  {
    Lookup(fields, key).Some? && Lookup(fields, key).value.Str?
  }

  /** A record of the transcript: a canonical unsigned identifier, a plain timestamp, two texts. */
  predicate IsRecord(j: Json)
  {
    && j.Obj?
    && Lookup(j.fields, "ID").Some?
    && var id := Lookup(j.fields, "ID").value;
    && id.Num? && id.integer && !id.signed && Classify(id.text) == CanonicalPositiveU64Decimal
    && TextAt(j.fields, "Timestamp")
    && ClassifyTimestamp(Lookup(j.fields, "Timestamp").value.s) == SENT_MESSAGE_TIME
    && TextAt(j.fields, "Contents") && TextAt(j.fields, "Attachments")
  }

  predicate AllRecords(items: Items)
  {
    items.Item? ==> IsRecord(items.head) && AllRecords(items.tail)
  }

  predicate IsTranscript(j: Json)
  {
    j.Arr? && AllRecords(j.items)
  }

  // ----- from paths to records -----

  function ItemSeq(items: Items): seq<Json>
  {
    match items
    case NoItems => []
    case Item(head, tail) => [head] + ItemSeq(tail)
  }

  function LookupSeq(j: Json, key: string): (values: seq<Json>)
    ensures |values| <= 1
  {
    if j.Obj? && Lookup(j.fields, key).Some? then [Lookup(j.fields, key).value] else []
  }

  /** The values of one key over all items, in order. */
  function KeyValues(items: Items, key: string): seq<Json>
  {
    match items
    case NoItems => []
    case Item(head, tail) => LookupSeq(head, key) + KeyValues(tail, key)
  }

  predicate PlainKey(key: string)
  {
    Segment(key) == key && key != "[]"
  }

  lemma LookupNone(fields: Fields, key: string)
    ensures key !in Keys(fields) <==> Lookup(fields, key).None?
  {
  }

  lemma {:induction false} FieldValuesOfKey(fields: Fields, key: string)
    requires NoDuplicatesInFields(fields) && PlainKey(key)
    ensures FieldValues(fields, [key]) == LookupSeq(Obj(fields), key)
  {
    hide Segment, NoDuplicateKeys;
    if fields.Field? {
      FieldValuesOfKey(fields.rest, key);
      SegmentInjective(fields.key, key);
      LookupNone(fields.rest, key);
      assert [key][1..] == [];
    }
  }

  lemma {:induction false} ItemValuesOfKey(items: Items, key: string)
    requires NoDuplicatesInItems(items) && PlainKey(key)
    ensures ItemValues(items, [key]) == KeyValues(items, key)
  {
    hide Segment;
    if items.Item? {
      ItemValuesOfKey(items.tail, key);
      if items.head.Obj? { FieldValuesOfKey(items.head.fields, key); }
    }
  }

  lemma {:induction false} ItemValuesAtRoot(items: Items)
    ensures ItemValues(items, []) == ItemSeq(items)
  {
    if items.Item? { ItemValuesAtRoot(items.tail); }
  }

  predicate AllObjects(items: Items)
  {
    items.Item? ==> items.head.Obj? && AllObjects(items.tail)
  }

  predicate AllHave(items: Items, key: string)
  {
    items.Item? ==> LookupSeq(items.head, key) != [] && AllHave(items.tail, key)
  }

  lemma NoObjects()
    ensures Summary([]).objects == 0
  {
  }

  lemma ObjectsCons(values: seq<Json>)
    requires |values| > 0
    ensures Summary(values).objects == Summary(values[1..]).objects + if values[0].Obj? then 1 else 0
  {
    hide Summary, OneStats;
    SummaryCons(values);
    OneValue(values[0]);
  }

  lemma {:induction false} MissingCounts(items: Items, key: string)
    requires AllObjects(items)
    ensures Summary(ItemSeq(items)).objects >= |KeyValues(items, key)|
    ensures Summary(ItemSeq(items)).objects == |KeyValues(items, key)| <==> AllHave(items, key)
  {
    hide Summary, LookupSeq;
    NoObjects();
    if items.Item? {
      MissingCounts(items.tail, key);
      assert ItemSeq(items)[1..] == ItemSeq(items.tail);
      ObjectsCons(ItemSeq(items));
    }
  }

  /** One value more at the front. */
  lemma SummaryCons(values: seq<Json>)
    requires |values| > 0
    ensures var first, rest, all := OneStats(values[0]), Summary(values[1..]), Summary(values);
      && all.occurrences == first.occurrences + rest.occurrences
      && all.objects == first.objects + rest.objects
      && all.decimalNumbers == first.decimalNumbers + rest.decimalNumbers
      && all.timestamps == first.timestamps + rest.timestamps
  {
    hide OneStats;
  }

  lemma OneValue(j: Json)
    ensures OneStats(j).occurrences == 1
    ensures OneStats(j).objects == (if j.Obj? then 1 else 0)
    ensures j.Num? ==> OneStats(j).decimalNumbers == {Classify(j.text)}
    ensures j.Str? ==> OneStats(j).timestamps == {ClassifyTimestamp(j.s)}
  {
    hide Classify, ClassifyTimestamp, ScalarStats, CountStats;
    OneScalar(j);
    OneCount(j);
  }

  lemma OneScalar(j: Json)
    ensures var s := ScalarStats(j);
      && s.occurrences == s.objects == 0
      && (j.Num? ==> s.decimalNumbers == {Classify(j.text)})
      && (j.Str? ==> s.timestamps == {ClassifyTimestamp(j.s)})
  {
    hide Classify, ClassifyTimestamp;
  }

  lemma OneCount(j: Json)
    ensures var c := CountStats(j);
      && c.occurrences == 1 && c.objects == (if j.Obj? then 1 else 0)
      && c.decimalNumbers == {} && c.timestamps == {}
  {
  }

  lemma {:induction false} SummaryOccurrences(values: seq<Json>)
    ensures Summary(values).occurrences == |values|
    decreases |values|
  {
    hide Summary, OneStats;
    if |values| > 0 {
      SummaryOccurrences(values[1..]);
      SummaryCons(values);
      OneValue(values[0]);
    } else {
      EmptySummary(values);
    }
  }

  lemma EmptySummary(values: seq<Json>)
    requires values == []
    ensures Summary(values).occurrences == Summary(values).objects == 0
    ensures Summary(values).decimalNumbers == {} && Summary(values).timestamps == {}
  {
  }

  predicate AllNumbers(values: seq<Json>)
  {
    forall i | 0 <= i < |values| :: values[i].Num?
  }

  predicate AllTexts(values: seq<Json>)
  {
    forall i | 0 <= i < |values| :: values[i].Str?
  }

  /** With numbers only, one number class was observed exactly when all have that class. */
  lemma {:induction false} NumberClasses(values: seq<Json>, class_: DecimalGrammar)
    requires AllNumbers(values)
    ensures (forall g | g in Summary(values).decimalNumbers :: g == class_)
       <==> (forall i | 0 <= i < |values| :: Classify(values[i].text) == class_)
    ensures Summary(values).decimalNumbers == {} <==> values == []
    decreases |values|
  {
    hide Classify, Summary, OneStats;
    if |values| > 0 {
      NumberClasses(values[1..], class_);
      SummaryCons(values);
      OneValue(values[0]);
      assert forall i | 0 < i < |values| :: values[i] == values[1..][i - 1];
      assert forall i | 0 <= i < |values[1..]| :: values[1..][i] == values[i + 1];
    } else {
      EmptySummary(values);
    }
  }

  lemma {:induction false} TimestampClasses(values: seq<Json>, class_: TimestampGrammar)
    requires AllTexts(values)
    ensures (forall g | g in Summary(values).timestamps :: g == class_)
       <==> (forall i | 0 <= i < |values| :: ClassifyTimestamp(values[i].s) == class_)
    ensures Summary(values).timestamps == {} <==> values == []
    decreases |values|
  {
    hide Classify, ClassifyTimestamp, Summary, OneStats;
    if |values| > 0 {
      TimestampClasses(values[1..], class_);
      SummaryCons(values);
      OneValue(values[0]);
      assert forall i | 0 < i < |values| :: values[i] == values[1..][i - 1];
      assert forall i | 0 <= i < |values[1..]| :: values[1..][i] == values[i + 1];
    } else {
      EmptySummary(values);
    }
  }

  // ----- the merged item shape -----

  predicate ScalarShape(shape: Shape)
  {
    shape.String? || shape.Number?
  }

  predicate AllShaped(values: seq<Json>, expected: Shape)
  {
    forall i | 0 <= i < |values| :: ShapeOf(values[i]) == expected
  }

  lemma {:induction false} FieldShapesLookup(known: map<string, Shape>, fields: Fields, key: string)
    requires NoDuplicatesInFields(fields) && known.Keys !! Keys(fields)
    ensures key in FieldShapes(known, fields) <==> key in known || Lookup(fields, key).Some?
    ensures key in known ==> FieldShapes(known, fields)[key] == known[key]
    ensures Lookup(fields, key).Some? ==> FieldShapes(known, fields)[key] == ShapeOf(Lookup(fields, key).value)
    decreases fields
  {
    hide ShapeOf, NoDuplicateKeys;
    if fields.Field? {
      LookupNone(fields.rest, key);
      FieldShapesLookup(known[fields.key := ShapeOf(fields.value)], fields.rest, key);
    }
  }

  lemma MergeToScalar(a: Shape, b: Shape, expected: Shape)
    requires ScalarShape(expected)
    ensures Shapes.Merge(a, b) == expected <==> a == expected && b == expected
  {
  }

  /** What the accumulated item shape says about one key. */
  predicate KeyShape(shape: Shape, key: string, expected: Shape)
  {
    shape.Object? && key in shape.fields && shape.fields[key] == expected
  }

  predicate KeyAbsent(shape: Shape, key: string)
  {
    shape.Object? && key !in shape.fields
  }

  lemma KeyFacts(shape: Shape, key: string, expected: Shape)
    ensures KeyShape(shape, key, expected) || KeyAbsent(shape, key) ==> shape.Object?
    ensures !(KeyShape(shape, key, expected) && KeyAbsent(shape, key))
  {
  }

  lemma MergeKeyShape(a: Shape, b: Shape, key: string, expected: Shape)
    requires ScalarShape(expected)
    ensures Shapes.Merge(a, b).Object? <==> a.Object? && b.Object?
    ensures KeyAbsent(Shapes.Merge(a, b), key) <==> KeyAbsent(a, key) && KeyAbsent(b, key)
    ensures KeyShape(Shapes.Merge(a, b), key, expected) <==>
      a.Object? && b.Object? && (KeyShape(a, key, expected) || KeyAbsent(a, key))
      && (KeyShape(b, key, expected) || KeyAbsent(b, key)) && !(KeyAbsent(a, key) && KeyAbsent(b, key))
  {
    if a.Object? && b.Object? && key in a.fields && key in b.fields {
      MergeToScalar(a.fields[key], b.fields[key], expected);
    }
  }

  lemma HeadShape(j: Json, key: string, expected: Shape)
    requires NoDuplicateKeys(j)
    ensures ShapeOf(j).Object? <==> j.Obj?
    ensures KeyAbsent(ShapeOf(j), key) <==> j.Obj? && LookupSeq(j, key) == []
    ensures KeyShape(ShapeOf(j), key, expected) <==>
      j.Obj? && LookupSeq(j, key) != [] && ShapeOf(LookupSeq(j, key)[0]) == expected
  {
    if j.Obj? { FieldShapesLookup(map[], j.fields, key); }
  }

  lemma {:induction false} ItemShapeKey(acc: Shape, items: Items, key: string, expected: Shape)
    requires NoDuplicatesInItems(items) && ScalarShape(expected)
    ensures var merged := ItemShape(Some(acc), items);
      && merged.Some?
      && (merged.value.Object? <==> acc.Object? && AllObjects(items))
      && (KeyAbsent(merged.value, key) <==> KeyAbsent(acc, key) && AllObjects(items) && KeyValues(items, key) == [])
      && (KeyShape(merged.value, key, expected) <==>
            acc.Object? && AllObjects(items) && (KeyShape(acc, key, expected) || KeyAbsent(acc, key))
            && AllShaped(KeyValues(items, key), expected) && !(KeyAbsent(acc, key) && KeyValues(items, key) == []))
    decreases items
  {
    hide KeyShape, KeyAbsent, ShapeOf, Shapes.Merge, NoDuplicateKeys, LookupSeq;
    KeyFacts(acc, key, expected);
    if items.Item? {
      var head := ShapeOf(items.head);
      HeadShape(items.head, key, expected);
      MergeKeyShape(acc, head, key, expected);
      ItemShapeKey(Shapes.Merge(acc, head), items.tail, key, expected);
      AllShapedSplit(LookupSeq(items.head, key), KeyValues(items.tail, key), expected);
    }
  }

  lemma AllShapedSplit(a: seq<Json>, b: seq<Json>, expected: Shape)
    requires |a| <= 1
    ensures AllShaped(a + b, expected) <==> (a == [] || ShapeOf(a[0]) == expected) && AllShaped(b, expected)
    ensures a + b == [] <==> a == [] && b == []
  {
    if AllShaped(a + b, expected) {
      assert forall i | 0 <= i < |b| :: (a + b)[|a| + i] == b[i];
      assert a != [] ==> (a + b)[0] == a[0];
    }
  }

  // ----- the decision on the summary is the decision on the records -----

  predicate IsText(j: Json)
  {
    j.Str?
  }

  lemma ShapedTexts(values: seq<Json>)
    ensures AllShaped(values, Shapes.String) <==> Every(values, IsText)
    ensures Every(values, IsText) <==> AllTexts(values)
  {
    if AllShaped(values, Shapes.String) {
      forall i | 0 <= i < |values| ensures IsText(values[i]) { assert ShapeOf(values[i]) == Shapes.String; }
    }
    if Every(values, IsText) {
      forall i | 0 <= i < |values| ensures ShapeOf(values[i]) == Shapes.String { assert IsText(values[i]); }
    }
    if AllTexts(values) {
      forall i | 0 <= i < |values| ensures IsText(values[i]) { }
    }
  }

  predicate CanonicalId(j: Json)
  {
    j.Num? && j.integer && !j.signed && Classify(j.text) == CanonicalPositiveU64Decimal
  }

  predicate SentTime(j: Json)
  {
    j.Str? && ClassifyTimestamp(j.s) == SENT_MESSAGE_TIME
  }

  predicate Every(values: seq<Json>, p: Json -> bool)
  {
    forall i | 0 <= i < |values| :: p(values[i])
  }

  lemma ShapedIds(values: seq<Json>)
    requires values != []
    ensures AllShaped(values, UNSIGNED) && Summary(values).decimalNumbers == {CanonicalPositiveU64Decimal}
       <==> Every(values, CanonicalId)
  {
    hide Classify, Summary;
    if AllShaped(values, UNSIGNED) {
      forall i | 0 <= i < |values| ensures values[i].Num? && values[i].integer && !values[i].signed {
        assert ShapeOf(values[i]) == UNSIGNED;
      }
    }
    if Every(values, CanonicalId) {
      forall i | 0 <= i < |values| ensures values[i].Num? && ShapeOf(values[i]) == UNSIGNED {
        assert CanonicalId(values[i]);
      }
    }
    if AllNumbers(values) {
      NumberClasses(values, CanonicalPositiveU64Decimal);
      SingletonSet(Summary(values).decimalNumbers, CanonicalPositiveU64Decimal);
    }
  }

  lemma SingletonSet<T>(s: set<T>, x: T)
    requires s != {}
    ensures s == {x} <==> forall y | y in s :: y == x
  {
    if forall y | y in s :: y == x {
      var y :| y in s;
    }
  }

  lemma TimesOfTexts(values: seq<Json>)
    requires values != [] && AllTexts(values)
    ensures Summary(values).timestamps == {SENT_MESSAGE_TIME} <==> Every(values, SentTime)
  {
    hide ClassifyTimestamp, Summary;
    TimestampClasses(values, SENT_MESSAGE_TIME);
    SingletonSet(Summary(values).timestamps, SENT_MESSAGE_TIME);
  }

  /** All items have the key, and its value satisfies `p` everywhere. */
  predicate EveryItem(items: Items, key: string, p: Json -> bool)
  {
    items.Item? ==>
      && items.head.Obj? && Lookup(items.head.fields, key).Some?
      && p(Lookup(items.head.fields, key).value) && EveryItem(items.tail, key, p)
  }

  lemma {:induction false} EveryItemIsEveryValue(items: Items, key: string, p: Json -> bool)
    requires AllObjects(items)
    ensures EveryItem(items, key, p) <==> AllHave(items, key) && Every(KeyValues(items, key), p)
  {
    if items.Item? {
      EveryItemIsEveryValue(items.tail, key, p);
      EverySplit(LookupSeq(items.head, key), KeyValues(items.tail, key), p);
      if Lookup(items.head.fields, key).Some? { EveryOne(Lookup(items.head.fields, key).value, p); }
    }
  }

  lemma EveryOne(j: Json, p: Json -> bool)
    ensures Every([j], p) <==> p(j)
  {
    if Every([j], p) { assert p([j][0]); }
  }

  lemma EverySplit(a: seq<Json>, b: seq<Json>, p: Json -> bool)
    ensures Every(a + b, p) <==> Every(a, p) && Every(b, p)
  {
    if Every(a + b, p) {
      forall i | 0 <= i < |a| ensures p(a[i]) { assert p((a + b)[i]); }
      forall i | 0 <= i < |b| ensures p(b[i]) { assert p((a + b)[|a| + i]); }
    }
  }

  /** The merged item shape of a nonempty array. */
  lemma MergedKey(items: Items, key: string, expected: Shape)
    requires items.Item? && NoDuplicatesInItems(items) && ScalarShape(expected)
    ensures ItemShape(None, items).Some?
    ensures ItemShape(None, items).value.Object? <==> AllObjects(items)
    ensures KeyShape(ItemShape(None, items).value, key, expected)
       <==> AllObjects(items) && KeyValues(items, key) != [] && AllShaped(KeyValues(items, key), expected)
  {
    hide KeyShape, KeyAbsent, ShapeOf, NoDuplicateKeys, LookupSeq, AllShaped;
    var head := ShapeOf(items.head);
    ItemShapeKey(head, items.tail, key, expected);
    HeadShape(items.head, key, expected);
    KeyFacts(head, key, expected);
    AllShapedSplit(LookupSeq(items.head, key), KeyValues(items.tail, key), expected);
  }

  lemma ReportKey(shape: Shape, key: string, expected: Shape)
    requires ScalarShape(expected)
    ensures Report(shape).Object? <==> shape.Object?
    ensures KeyShape(Report(shape), key, expected) <==> KeyShape(shape, key, expected)
  {
  }

  /** The nodes the decision looks at. */
  lemma TranscriptNodes(items: Items, key: string)
    requires NoDuplicatesInItems(items) && PlainKey(key)
    ensures var nodes := VisitNodes(map[], [], Arr(items));
      && (["[]"] in nodes <==> items.Item?)
      && At(nodes, ["[]"]) == Summary(ItemSeq(items))
      && (["[]", key] in nodes <==> KeyValues(items, key) != [])
      && At(nodes, ["[]", key]) == Summary(KeyValues(items, key))
  {
    hide VisitNodes, Summary, PlainKey;
    var j := Arr(items);
    NodesMeanValues(j, ["[]"]);
    NodesMeanValues(j, ["[]", key]);
    assert ["[]"][1..] == [] && ["[]", key][1..] == [key];
    ItemValuesAtRoot(items);
    ItemValuesOfKey(items, key);
  }

  lemma KeyOkMeans(items: Items, key: string, expected: Shape)
    requires items.Item? && NoDuplicatesInItems(items) && AllObjects(items)
    requires PlainKey(key) && ScalarShape(expected)
    ensures var entry := EntryOf(Arr(items));
      && entry.shape.Array? && entry.shape.items.Some? && entry.shape.items.value.Object?
      && (KeyOk(entry, entry.shape.items.value.fields, key, expected) <==>
        && AllHave(items, key) && KeyValues(items, key) != [] && AllShaped(KeyValues(items, key), expected)
        && (key == "ID" ==> Summary(KeyValues(items, key)).decimalNumbers == {CanonicalPositiveU64Decimal})
        && (key == "Timestamp" ==> Summary(KeyValues(items, key)).timestamps == {SENT_MESSAGE_TIME}))
  {
    hide VisitNodes, Summary, AllShaped, AllHave, PlainKey, NoDuplicatesInItems, AllObjects;
    var entry := EntryOf(Arr(items));
    var path := ["[]", key];
    MergedKey(items, key, expected);
    var merged := ItemShape(None, items).value;
    ReportKey(merged, key, expected);
    TranscriptNodes(items, key);
    MissingCounts(items, key);
    SummaryOccurrences(KeyValues(items, key));
    assert path[..1] == ["[]"];
    assert KeyShape(Report(merged), key, expected) <==> KeyShape(merged, key, expected);
    PlainIsNotItem(key);
  }

  lemma PlainIsNotItem(key: string)
    requires PlainKey(key)
    ensures key != "[]"
  {
  }

  /** Identifiers: canonical unsigned numbers everywhere. */
  lemma IdKey(items: Items)
    requires items.Item? && NoDuplicatesInItems(items) && AllObjects(items)
    ensures var entry := EntryOf(Arr(items));
      && entry.shape.Array? && entry.shape.items.Some? && entry.shape.items.value.Object?
      && (KeyOk(entry, entry.shape.items.value.fields, "ID", UNSIGNED) <==> EveryItem(items, "ID", CanonicalId))
  {
    hide EntryOf, KeyOk, Summary, AllShaped, AllHave, EveryItem, Every;
    assert PlainKey("ID");
    KeyOkMeans(items, "ID", UNSIGNED);
    EveryItemIsEveryValue(items, "ID", CanonicalId);
    if KeyValues(items, "ID") != [] { ShapedIds(KeyValues(items, "ID")); }
    if AllHave(items, "ID") { HaveMeansValues(items, "ID"); }
  }

  lemma HaveMeansValues(items: Items, key: string)
    requires items.Item? && AllHave(items, key)
    ensures KeyValues(items, key) != []
  {
  }

  lemma TimeKey(items: Items)
    requires items.Item? && NoDuplicatesInItems(items) && AllObjects(items)
    ensures var entry := EntryOf(Arr(items));
      && entry.shape.Array? && entry.shape.items.Some? && entry.shape.items.value.Object?
      && (KeyOk(entry, entry.shape.items.value.fields, "Timestamp", Shapes.String) <==>
        EveryItem(items, "Timestamp", SentTime))
  {
    hide EntryOf, KeyOk, Summary, AllShaped, AllHave, EveryItem, Every, AllTexts;
    assert PlainKey("Timestamp");
    var values := KeyValues(items, "Timestamp");
    KeyOkMeans(items, "Timestamp", Shapes.String);
    EveryItemIsEveryValue(items, "Timestamp", SentTime);
    ShapedTexts(values);
    SentTimesAreTexts(values);
    if values != [] && AllTexts(values) { TimesOfTexts(values); }
    if AllHave(items, "Timestamp") { HaveMeansValues(items, "Timestamp"); }
  }

  lemma SentTimesAreTexts(values: seq<Json>)
    ensures Every(values, SentTime) ==> AllTexts(values)
  {
    if Every(values, SentTime) {
      forall i | 0 <= i < |values| ensures values[i].Str? { assert SentTime(values[i]); }
    }
  }

  lemma TextKey(items: Items, key: string)
    requires items.Item? && NoDuplicatesInItems(items) && AllObjects(items)
    requires PlainKey(key) && key != "ID" && key != "Timestamp"
    ensures var entry := EntryOf(Arr(items));
      && entry.shape.Array? && entry.shape.items.Some? && entry.shape.items.value.Object?
      && (KeyOk(entry, entry.shape.items.value.fields, key, Shapes.String) <==> EveryItem(items, key, IsText))
  {
    hide EntryOf, KeyOk, Summary, AllShaped, AllHave, EveryItem, Every, AllTexts;
    KeyOkMeans(items, key, Shapes.String);
    EveryItemIsEveryValue(items, key, IsText);
    ShapedTexts(KeyValues(items, key));
    if AllHave(items, key) { HaveMeansValues(items, key); }
  }

  lemma {:induction false} RecordsAreEveryKey(items: Items)
    ensures AllRecords(items) <==>
      && EveryItem(items, "ID", CanonicalId) && EveryItem(items, "Timestamp", SentTime)
      && EveryItem(items, "Contents", IsText) && EveryItem(items, "Attachments", IsText)
    ensures EveryItem(items, "ID", CanonicalId) ==> AllObjects(items)
  {
    hide Classify, ClassifyTimestamp;
    if items.Item? { RecordsAreEveryKey(items.tail); }
  }

  lemma EntryParts(items: Items)
    ensures var entry := EntryOf(Arr(items));
      && entry.shape.Array? && entry.nodes == VisitNodes(map[], [], Arr(items))
      && (items.Item? ==>
        ItemShape(None, items).Some? && entry.shape.items == Some(Report(ItemShape(None, items).value)))
  {
    hide VisitNodes;
    if items.Item? { ItemShapeSome(ShapeOf(items.head), items.tail); }
  }

  lemma {:induction false} ItemShapeSome(acc: Shape, items: Items)
    ensures ItemShape(Some(acc), items).Some?
    decreases items
  {
    hide ShapeOf, Shapes.Merge;
    if items.Item? { ItemShapeSome(Shapes.Merge(acc, ShapeOf(items.head)), items.tail); }
  }

  lemma ObjectItems(entry: Entry)
    requires entry.shape.Array? && ["[]"] in entry.nodes
    requires entry.shape.items.Some? && entry.shape.items.value.Object?
    ensures Decision(entry).Ok? || Decision(entry) == Err(InvalidTranscript)
  {
    hide KeyOk;
  }

  lemma MixedItems(entry: Entry)
    requires entry.shape.Array? && ["[]"] in entry.nodes
    requires entry.shape.items.Some? && !entry.shape.items.value.Object?
    ensures Decision(entry) == Err(UnsupportedProfile)
  {
  }

  lemma NonemptyDecision(items: Items)
    requires items.Item? && NoDuplicatesInItems(items)
    ensures Decision(EntryOf(Arr(items))).Ok? <==> AllRecords(items)
    ensures Decision(EntryOf(Arr(items))) == Err(UnsupportedProfile) <==> !AllObjects(items)
  {
    hide *;
    EntryParts(items);
    PlainRequiredKeys();
    TranscriptNodes(items, "ID");
    MergedKey(items, "ID", UNSIGNED);
    ReportKey(ItemShape(None, items).value, "ID", UNSIGNED);
    RecordsAreEveryKey(items);
    if AllObjects(items) {
      IdKey(items);
      TimeKey(items);
      TextKey(items, "Contents");
      TextKey(items, "Attachments");
      FourKeys(EntryOf(Arr(items)));
      ObjectItems(EntryOf(Arr(items)));
    } else {
      MixedItems(EntryOf(Arr(items)));
    }
  }

  lemma PlainRequiredKeys()
    ensures PlainKey("ID") && PlainKey("Timestamp") && PlainKey("Contents") && PlainKey("Attachments")
    ensures ScalarShape(UNSIGNED) && ScalarShape(Shapes.String)
  {
  }

  lemma EmptyDecision(items: Items)
    requires items.NoItems?
    ensures Decision(EntryOf(Arr(items))).Ok? && AllRecords(items)
  {
    hide VisitNodes, KeyOk;
    EntryParts(items);
    PlainRequiredKeys();
    TranscriptNodes(items, "ID");
  }

  lemma NotArray(j: Json)
    requires !j.Arr?
    ensures Decision(EntryOf(j)) == Err(UnsupportedProfile)
  {
    hide VisitNodes, KeyOk;
  }

  /** The decision on the one-pass summary succeeds exactly on transcripts: every item of the
      root array is a record. */
  lemma DecisionMeansTranscript(j: Json)
    requires NoDuplicateKeys(j)
    ensures Decision(EntryOf(j)).Ok? <==> IsTranscript(j)
    ensures Decision(EntryOf(j)) == Err(UnsupportedProfile) <==> !(j.Arr? && AllObjects(j.items))
  {
    hide Decision, EntryOf, AllRecords;
    match j
    case Arr(items) => if items.Item? { NonemptyDecision(items); } else { EmptyDecision(items); }
    case _ => NotArray(j);
  }

  lemma FourKeys(entry: Entry)
    requires entry.shape.Array? && entry.shape.items.Some? && entry.shape.items.value.Object? && ["[]"] in entry.nodes
    ensures var fields := entry.shape.items.value.fields;
      Decision(entry).Ok? <==>
      && KeyOk(entry, fields, "ID", UNSIGNED) && KeyOk(entry, fields, "Timestamp", Shapes.String)
      && KeyOk(entry, fields, "Contents", Shapes.String) && KeyOk(entry, fields, "Attachments", Shapes.String)
  {
    hide KeyOk;
    var required := Required();
    assert |required| == 4;
    assert required[0] == ("ID", UNSIGNED) && required[1] == ("Timestamp", Shapes.String);
    assert required[2] == ("Contents", Shapes.String) && required[3] == ("Attachments", Shapes.String);
  }
}
