/** The one-pass structural summary of a JSON document: one merged shape, and per path the
    number of occurrences, the kinds of value and the scalar grammars seen there. */
module Structure {
  import opened Budgets
  import opened Calendar
  import opened Decimal
  import opened Options
  import Shapes

  type Shape = Shapes.Shape

  /** A document as the parser delivers it; a number carries its kind and its literal text. */
  datatype Json =
    | Null | Bool | Num(integer: bool, signed: bool, text: string) | Str(s: string)
    | Arr(items: Items) | Obj(fields: Fields)

  datatype Items = NoItems | Item(head: Json, tail: Items)

  datatype Fields = NoFields | Field(key: string, value: Json, rest: Fields)

  type Path = seq<string>

  datatype StructureError = DuplicateJsonKey | LimitExceeded

  // ----- per-path statistics -----

  datatype Stats = Stats(
    occurrences: nat, nulls: nat, booleans: nat, unsignedIntegers: nat, signedIntegers: nat,
    fractions: nat, texts: nat, arrays: nat, objects: nat,
    decimalNumbers: set<DecimalGrammar>, decimalStrings: set<DecimalGrammar>, timestamps: set<TimestampGrammar>)

  const NOTHING := Stats(0, 0, 0, 0, 0, 0, 0, 0, 0, {}, {}, {})

  function Plus(a: Stats, b: Stats): Stats
  {
    Stats(a.occurrences + b.occurrences, a.nulls + b.nulls, a.booleans + b.booleans,
      a.unsignedIntegers + b.unsignedIntegers, a.signedIntegers + b.signedIntegers,
      a.fractions + b.fractions, a.texts + b.texts, a.arrays + b.arrays, a.objects + b.objects,
      a.decimalNumbers + b.decimalNumbers, a.decimalStrings + b.decimalStrings, a.timestamps + b.timestamps)
  }

  /** What the scalar visitors add to a node: the grammars of a number or a string. */
  function ScalarStats(j: Json): Stats
  {
    match j
    case Num(_, _, text) => NOTHING.(decimalNumbers := {Classify(text)})
    case Str(s) => NOTHING.(decimalStrings := {Classify(s)}, timestamps := {ClassifyTimestamp(s)})
    case _ => NOTHING
  }

  /** What `record` adds to a node once the value has been visited. */
  function CountStats(j: Json): Stats
  {
    var one := NOTHING.(occurrences := 1);
    match j
    case Null => one.(nulls := 1)
    case Bool => one.(booleans := 1)
    case Num(integer, signed, _) =>
      if integer && !signed then one.(unsignedIntegers := 1)
      else if integer then one.(signedIntegers := 1)
      else one.(fractions := 1)
    case Str(_) => one.(texts := 1)
    case Arr(_) => one.(arrays := 1)
    case Obj(_) => one.(objects := 1)
  }

  function OneStats(j: Json): Stats
  {
    Plus(ScalarStats(j), CountStats(j))
  }

  function Summary(values: seq<Json>): Stats
    decreases |values|
  {
    if |values| == 0 then NOTHING else Plus(OneStats(values[0]), Summary(values[1..]))
  }

  datatype Kind = NullKind | BoolKind | UnsignedKind | SignedKind | FractionKind | TextKind | ArrayKind | ObjectKind

  predicate IsOf(j: Json, kind: Kind)
  {
    match kind
    case NullKind => j.Null?
    case BoolKind => j.Bool?
    case UnsignedKind => j.Num? && j.integer && !j.signed
    case SignedKind => j.Num? && j.integer && j.signed
    case FractionKind => j.Num? && !j.integer
    case TextKind => j.Str?
    case ArrayKind => j.Arr?
    case ObjectKind => j.Obj?
  }

  function CountOf(stats: Stats, kind: Kind): nat
  {
    match kind
    case NullKind => stats.nulls
    case BoolKind => stats.booleans
    case UnsignedKind => stats.unsignedIntegers
    case SignedKind => stats.signedIntegers
    case FractionKind => stats.fractions
    case TextKind => stats.texts
    case ArrayKind => stats.arrays
    case ObjectKind => stats.objects
  }

  /** How many values are of a kind. */
  function HowMany(values: seq<Json>, kind: Kind): nat
  {
    if |values| == 0 then 0 else (if IsOf(values[0], kind) then 1 else 0) + HowMany(values[1..], kind)
  }

  lemma OneCount(j: Json, kind: Kind)
    ensures CountOf(OneStats(j), kind) == (if IsOf(j, kind) then 1 else 0) && OneStats(j).occurrences == 1
  {
    hide ScalarStats, CountStats, CountOf, IsOf, Plus;
    ScalarCount(j, kind);
    RecordCount(j, kind);
    PlusCount(ScalarStats(j), CountStats(j), kind);
  }

  lemma ScalarCount(j: Json, kind: Kind)
    ensures CountOf(ScalarStats(j), kind) == 0 == ScalarStats(j).occurrences
  {
    hide Classify, ClassifyTimestamp;
  }

  lemma RecordCount(j: Json, kind: Kind)
    ensures CountOf(CountStats(j), kind) == (if IsOf(j, kind) then 1 else 0) && CountStats(j).occurrences == 1
  {
    match j
    case Null =>
    case Bool =>
    case Num(integer, signed, _) =>
    case Str(_) =>
    case Arr(_) =>
    case Obj(_) =>
  }

  lemma PlusCount(a: Stats, b: Stats, kind: Kind)
    ensures CountOf(Plus(a, b), kind) == CountOf(a, kind) + CountOf(b, kind)
    ensures Plus(a, b).occurrences == a.occurrences + b.occurrences
    ensures CountOf(NOTHING, kind) == 0 == NOTHING.occurrences
  {
  }

  /** What a summary counts: the values, and those of every kind. */
  lemma {:induction false} SummaryCounts(values: seq<Json>, kind: Kind)
    ensures Summary(values).occurrences == |values| && CountOf(Summary(values), kind) == HowMany(values, kind)
  {
    hide Plus, OneStats, CountOf, IsOf;
    if |values| == 0 {
      PlusCount(NOTHING, NOTHING, kind);
    } else {
      SummaryCounts(values[1..], kind);
      OneCount(values[0], kind);
      PlusCount(OneStats(values[0]), Summary(values[1..]), kind);
    }
  }

  /** The text of a number, or of a string, has this grammar. */
  predicate NumberWith(v: Json, grammar: DecimalGrammar)
  {
    v.Num? && Classify(v.text) == grammar
  }

  predicate StringWith(v: Json, grammar: DecimalGrammar)
  {
    v.Str? && Classify(v.s) == grammar
  }

  predicate StringAt(v: Json, grammar: TimestampGrammar)
  {
    v.Str? && ClassifyTimestamp(v.s) == grammar
  }

  lemma OneGrammars(v: Json, decimal: DecimalGrammar, timestamp: TimestampGrammar)
    ensures decimal in OneStats(v).decimalNumbers <==> NumberWith(v, decimal)
    ensures decimal in OneStats(v).decimalStrings <==> StringWith(v, decimal)
    ensures timestamp in OneStats(v).timestamps <==> StringAt(v, timestamp)
  {
    hide ScalarStats, CountStats, Plus;
    ScalarGrammars(v);
    PlusGrammars(ScalarStats(v), CountStats(v));
  }

  lemma ScalarGrammars(v: Json)
    ensures var s, c := ScalarStats(v), CountStats(v);
      && s.decimalNumbers == (if v.Num? then {Classify(v.text)} else {})
      && s.decimalStrings == (if v.Str? then {Classify(v.s)} else {})
      && s.timestamps == (if v.Str? then {ClassifyTimestamp(v.s)} else {})
      && c.decimalNumbers == {} && c.decimalStrings == {} && c.timestamps == {}
  {
    hide Classify, ClassifyTimestamp;
  }

  lemma PlusGrammars(a: Stats, b: Stats)
    ensures Plus(a, b).decimalNumbers == a.decimalNumbers + b.decimalNumbers
    ensures Plus(a, b).decimalStrings == a.decimalStrings + b.decimalStrings
    ensures Plus(a, b).timestamps == a.timestamps + b.timestamps
    ensures NOTHING.decimalNumbers == {} && NOTHING.decimalStrings == {} && NOTHING.timestamps == {}
  {
  }

  /** Which grammars a summary has seen: those of the numbers and of the strings, as decimals and as timestamps. */
  lemma {:induction false} SummaryGrammars(values: seq<Json>, decimal: DecimalGrammar, timestamp: TimestampGrammar)
    ensures decimal in Summary(values).decimalNumbers <==>
      exists i :: 0 <= i < |values| && NumberWith(values[i], decimal)
    ensures decimal in Summary(values).decimalStrings <==>
      exists i :: 0 <= i < |values| && StringWith(values[i], decimal)
    ensures timestamp in Summary(values).timestamps <==>
      exists i :: 0 <= i < |values| && StringAt(values[i], timestamp)
  {
    hide Plus, OneStats, NumberWith, StringWith, StringAt;
    PlusGrammars(NOTHING, NOTHING);
    if |values| > 0 {
      var rest := values[1..];
      SummaryGrammars(rest, decimal, timestamp);
      OneGrammars(values[0], decimal, timestamp);
      PlusGrammars(OneStats(values[0]), Summary(rest));
      assert forall i :: 0 <= i < |rest| ==> rest[i] == values[i + 1];
      assert forall i :: 0 < i < |values| ==> values[i] == rest[i - 1];
    }
  }

  // ----- the values at a path -----

  /** The path segment of a key; `[]` is kept for array items. */
  function Segment(key: string): string
  {
    if key == "[]" || (key != "" && key[0] == '~') then "~" + key else key
  }

  lemma SegmentInjective(a: string, b: string)
    ensures Segment(a) == Segment(b) ==> a == b
    ensures Segment(a) != "[]"
  {
    assert ("~" + a)[1..] == a && ("~" + b)[1..] == b;
    assert ("~" + a)[0] == '~' && ("~" + b)[0] == '~' && "[]"[0] == '[';
  }

  /** All values found by following a path from `j`, in document order. */
  function ValuesAt(j: Json, path: Path): seq<Json>
    decreases j
  {
    if |path| == 0 then [j]
    else match j
      case Arr(items) => if path[0] == "[]" then ItemValues(items, path[1..]) else []
      case Obj(fields) => FieldValues(fields, path)
      case _ => []
  }

  function ItemValues(items: Items, path: Path): seq<Json>
    decreases items
  {
    match items
    case NoItems => []
    case Item(head, tail) => ValuesAt(head, path) + ItemValues(tail, path)
  }

  function FieldValues(fields: Fields, path: Path): seq<Json>
    requires |path| > 0
    decreases fields
  {
    match fields
    case NoFields => []
    case Field(key, value, rest) =>
      (if Segment(key) == path[0] then ValuesAt(value, path[1..]) else []) + FieldValues(rest, path)
  }

  function Keys(fields: Fields): set<string>
  {
    match fields
    case NoFields => {}
    case Field(key, _, rest) => {key} + Keys(rest)
  }

  predicate NoDuplicateKeys(j: Json)
  {
    match j
    case Arr(items) => NoDuplicatesInItems(items)
    case Obj(fields) => NoDuplicatesInFields(fields)
    case _ => true
  }

  predicate NoDuplicatesInItems(items: Items)
  {
    items.Item? ==> NoDuplicateKeys(items.head) && NoDuplicatesInItems(items.tail)
  }

  predicate NoDuplicatesInFields(fields: Fields)
  {
    fields.Field? ==>
      fields.key !in Keys(fields.rest) && NoDuplicateKeys(fields.value) && NoDuplicatesInFields(fields.rest)
  }

  // ----- the shape of a document -----

  function ShapeOf(j: Json): Shape
  {
    match j
    case Null => Shapes.Null
    case Bool => Shapes.Boolean
    case Num(integer, signed, _) => Shapes.Number(integer, signed)
    case Str(_) => Shapes.String
    case Arr(items) => Shapes.Array(ItemShape(None, items))
    case Obj(fields) => Shapes.Object(FieldShapes(map[], fields))
  }

  function ItemShape(shape: Option<Shape>, items: Items): Option<Shape>
    decreases items
  {
    match items
    case NoItems => shape
    case Item(head, tail) => ItemShape(Shapes.MergeOption(shape, Some(ShapeOf(head))), tail)
  }

  function FieldShapes(known: map<string, Shape>, fields: Fields): map<string, Shape>
    decreases fields
  {
    match fields
    case NoFields => known
    case Field(key, value, rest) => FieldShapes(known[key := ShapeOf(value)], rest)
  }

  // ----- the traversal of the source -----

  function Size(j: Json): nat
  {
    match j
    case Arr(items) => 1 + ItemsSize(items)
    case Obj(fields) => 1 + FieldsSize(fields)
    case _ => 1
  }

  function ItemsSize(items: Items): nat
  {
    match items
    case NoItems => 0
    case Item(head, tail) => 1 + Size(head) + ItemsSize(tail)
  }

  function FieldsSize(fields: Fields): nat
  {
    match fields
    case NoFields => 0
    case Field(_, value, rest) => 1 + Size(value) + FieldsSize(rest)
  }

  type Nodes = map<Path, Stats>

  function At(nodes: Nodes, path: Path): Stats
  {
    if path in nodes then nodes[path] else NOTHING
  }

  function Add(nodes: Nodes, path: Path, stats: Stats): Nodes
  {
    nodes[path := Plus(At(nodes, path), stats)]
  }

  /** The nodes after visiting `j` at `base`: reserve the node, visit, then record. */
  function VisitNodes(nodes: Nodes, base: Path, j: Json): Nodes
    decreases j
  {
    var reserved := Add(Add(nodes, base, NOTHING), base, ScalarStats(j));
    var visited := match j
      case Arr(items) => ItemNodes(reserved, base + ["[]"], items)
      case Obj(fields) => FieldNodes(reserved, base, fields)
      case _ => reserved;
    Add(visited, base, CountStats(j))
  }

  function ItemNodes(nodes: Nodes, base: Path, items: Items): Nodes
    decreases items
  {
    match items
    case NoItems => nodes
    case Item(head, tail) => ItemNodes(VisitNodes(nodes, base, head), base, tail)
  }

  function FieldNodes(nodes: Nodes, base: Path, fields: Fields): Nodes
    decreases fields
  {
    match fields
    case NoFields => nodes
    case Field(key, value, rest) => FieldNodes(VisitNodes(nodes, base + [Segment(key)], value), base, rest)
  }

  // ----- what a document costs -----

  function CostOf(j: Json): Cost
  {
    match j
    case Null => Cost(1, 1, 1)
    case Bool => Cost(1, 1, 1)
    case Num(_, _, _) => Cost(1, 8, 8)
    case Str(s) => Cost(1, |s|, |s|)
    case Arr(items) => Together(Cost(1, 0, 0), ItemsCost(items))
    case Obj(fields) => Together(Cost(1, 0, 0), FieldsCost(fields))
  }

  function ItemsCost(items: Items): Cost
  {
    match items
    case NoItems => Cost(0, 0, 0)
    case Item(head, tail) => Together(CostOf(head), ItemsCost(tail))
  }

  function FieldsCost(fields: Fields): Cost
  {
    match fields
    case NoFields => Cost(0, 0, 0)
    case Field(key, value, rest) => Together(Together(Cost(1, |key|, |key|), CostOf(value)), FieldsCost(rest))
  }

  /** How many values are nested in each other. */
  function Height(j: Json): nat
  {
    match j
    case Arr(items) => 1 + ItemsHeight(items)
    case Obj(fields) => 1 + FieldsHeight(fields)
    case _ => 1
  }

  function ItemsHeight(items: Items): nat
  {
    match items
    case NoItems => 0
    case Item(head, tail) => Larger(Height(head), ItemsHeight(tail))
  }

  function FieldsHeight(fields: Fields): nat
  {
    match fields
    case NoFields => 0
    case Field(_, value, rest) => Larger(Height(value), FieldsHeight(rest))
  }

  /** The bytes charged for a path in the table, and for every grammar seen there: twice its size and an
      allocation, where a decimal grammar takes one byte and a timestamp grammar three. */
  function PathCharge(path: Path): nat
  {
    if |path| == 0 then 384 else PathCharge(path[..|path| - 1]) + 3 * |path[|path| - 1]| + 96
  }

  const DECIMAL_CHARGE: nat := 18
  const TIMESTAMP_CHARGE: nat := 22

  function GrammarCharge(stats: Stats): nat
  {
    DECIMAL_CHARGE * (|stats.decimalNumbers| + |stats.decimalStrings|) + TIMESTAMP_CHARGE * |stats.timestamps|
  }

  ghost function Retained(nodes: Nodes): nat
    decreases |nodes|
  {
    if nodes == map[] then 0
    else
      var path :| path in nodes;
      PathCharge(path) + GrammarCharge(nodes[path]) + Retained(nodes - {path})
  }

  lemma {:induction false} RetainedWithout(nodes: Nodes, path: Path)
    requires path in nodes
    ensures Retained(nodes) == PathCharge(path) + GrammarCharge(nodes[path]) + Retained(nodes - {path})
    decreases |nodes|
  {
    hide PathCharge, GrammarCharge;
    var first :| first in nodes &&
      Retained(nodes) == PathCharge(first) + GrammarCharge(nodes[first]) + Retained(nodes - {first});
    if first != path {
      RetainedWithout(nodes - {first}, path);
      RetainedWithout(nodes - {path}, first);
      assert nodes - {first} - {path} == nodes - {path} - {first};
    }
  }

  /** What a node and the grammars new to it add to the charges. */
  function Growth(nodes: Nodes, path: Path, stats: Stats): nat
  {
    var known := At(nodes, path);
    (if path in nodes then 0 else PathCharge(path))
    + DECIMAL_CHARGE * (|stats.decimalNumbers - known.decimalNumbers| + |stats.decimalStrings - known.decimalStrings|)
    + TIMESTAMP_CHARGE * |stats.timestamps - known.timestamps|
  }

  lemma SizeOfUnion<T>(a: set<T>, b: set<T>)
    ensures |a + b| == |a| + |b - a|
  {
    assert a + b == a + (b - a);
  }

  lemma RetainedAdd(nodes: Nodes, path: Path, stats: Stats)
    ensures Retained(Add(nodes, path, stats)) == Retained(nodes) + Growth(nodes, path, stats)
  {
    hide PathCharge, Retained;
    var known, after := At(nodes, path), Add(nodes, path, stats);
    SizeOfUnion(known.decimalNumbers, stats.decimalNumbers);
    SizeOfUnion(known.decimalStrings, stats.decimalStrings);
    SizeOfUnion(known.timestamps, stats.timestamps);
    RetainedWithout(after, path);
    assert after - {path} == nodes - {path};
    if path in nodes {
      RetainedWithout(nodes, path);
    } else {
      assert nodes - {path} == nodes;
    }
  }

  lemma {:induction false} VisitRetains(nodes: Nodes, base: Path, j: Json)
    ensures var placed := Add(nodes, base, NOTHING); var reserved := Add(placed, base, ScalarStats(j));
      Retained(nodes) <= Retained(placed) <= Retained(reserved) <= Retained(VisitNodes(nodes, base, j))
    decreases j
  {
    hide Retained, Growth, ScalarStats, CountStats;
    var placed := Add(nodes, base, NOTHING);
    var reserved := Add(placed, base, ScalarStats(j));
    RetainedAdd(nodes, base, NOTHING);
    RetainedAdd(placed, base, ScalarStats(j));
    match j {
      case Arr(items) =>
        ItemsRetain(reserved, base + ["[]"], items);
        RetainedAdd(ItemNodes(reserved, base + ["[]"], items), base, CountStats(j));
      case Obj(fields) =>
        FieldsRetain(reserved, base, fields);
        RetainedAdd(FieldNodes(reserved, base, fields), base, CountStats(j));
      case _ => RetainedAdd(reserved, base, CountStats(j));
    }
  }

  lemma {:induction false} ItemsRetain(nodes: Nodes, base: Path, items: Items)
    ensures Retained(nodes) <= Retained(ItemNodes(nodes, base, items))
    decreases items
  {
    hide Retained, VisitNodes;
    if items.Item? {
      VisitRetains(nodes, base, items.head);
      ItemsRetain(VisitNodes(nodes, base, items.head), base, items.tail);
    }
  }

  lemma {:induction false} FieldsRetain(nodes: Nodes, base: Path, fields: Fields)
    ensures Retained(nodes) <= Retained(FieldNodes(nodes, base, fields))
    decreases fields
  {
    hide Retained, VisitNodes, Segment;
    if fields.Field? {
      var child := base + [Segment(fields.key)];
      VisitRetains(nodes, child, fields.value);
      FieldsRetain(VisitNodes(nodes, child, fields.value), base, fields.rest);
    }
  }

  // ----- what a visit may cost -----

  datatype ProbeLimits = ProbeLimits(budgets: Limits, maxDepth: nat, maxRetained: nat)

  /** The counters and the table, between two visits. */
  datatype Load = Load(tokens: nat, decoded: nat, nodes: Nodes)

  predicate EachFits(limits: Limits, items: Items)
  {
    items.Item? ==>
      CostOf(items.head).bytes <= limits.maxDecoded && CostOf(items.head).widest <= limits.maxScalar
        && EachFits(limits, items.tail)
  }

  /** No key is repeated, and every budget lasts; a root array has its decoded bytes counted item by item. */
  ghost predicate VisitFits(limits: ProbeLimits, load: Load, depth: nat, path: Path, j: Json)
  {
    && NoDuplicateKeys(j)
    && depth + Height(j) <= limits.maxDepth + 1
    && Retained(VisitNodes(load.nodes, path, j)) <= limits.maxRetained
    && if depth == 1 && j.Arr?
       then load.tokens + CostOf(j).tokens <= limits.budgets.maxTokens && EachFits(limits.budgets, j.items)
       else Fit(limits.budgets, load.tokens, load.decoded, CostOf(j))
  }

  function AfterVisit(load: Load, depth: nat, path: Path, j: Json): Load
  {
    Load(load.tokens + CostOf(j).tokens, if depth == 1 && j.Arr? then 0 else load.decoded + CostOf(j).bytes,
      VisitNodes(load.nodes, path, j))
  }

  ghost predicate SeqFits(limits: ProbeLimits, load: Load, depth: nat, path: Path, items: Items)
  {
    && NoDuplicatesInItems(items)
    && depth + ItemsHeight(items) <= limits.maxDepth
    && Retained(ItemNodes(load.nodes, path, items)) <= limits.maxRetained
    && if depth == 1
       then load.tokens + ItemsCost(items).tokens <= limits.budgets.maxTokens && EachFits(limits.budgets, items)
       else Fit(limits.budgets, load.tokens, load.decoded, ItemsCost(items))
  }

  function AfterSeq(load: Load, depth: nat, path: Path, items: Items): Load
  {
    Load(load.tokens + ItemsCost(items).tokens, if depth == 1 then 0 else load.decoded + ItemsCost(items).bytes,
      ItemNodes(load.nodes, path, items))
  }

  ghost predicate MapFits(limits: ProbeLimits, load: Load, depth: nat, path: Path, fields: Fields)
  {
    && NoDuplicatesInFields(fields)
    && depth + FieldsHeight(fields) <= limits.maxDepth
    && Retained(FieldNodes(load.nodes, path, fields)) <= limits.maxRetained
    && Fit(limits.budgets, load.tokens, load.decoded, FieldsCost(fields))
  }

  function AfterMap(load: Load, path: Path, fields: Fields): Load
  {
    Load(load.tokens + FieldsCost(fields).tokens, load.decoded + FieldsCost(fields).bytes,
      FieldNodes(load.nodes, path, fields))
  }

  ghost predicate Sound(limits: ProbeLimits, load: Load)
  {
    && load.tokens <= limits.budgets.maxTokens && load.decoded <= limits.budgets.maxDecoded
    && Retained(load.nodes) <= limits.maxRetained
  }

  function NextRecord(load: Load, depth: nat): Load
  {
    if depth == 1 then load.(decoded := 0) else load
  }

  /** The items fit exactly when the first one does and then the others do. */
  lemma SeqStep(limits: ProbeLimits, load: Load, depth: nat, path: Path, items: Items)
    requires items.Item? && depth > 0 && depth <= limits.maxDepth && Sound(limits, load)
    ensures var next := NextRecord(load, depth); var after := AfterVisit(next, depth + 1, path, items.head);
      && (SeqFits(limits, load, depth, path, items) <==>
            VisitFits(limits, next, depth + 1, path, items.head) && SeqFits(limits, after, depth, path, items.tail))
      && AfterSeq(load, depth, path, items) == AfterSeq(after, depth, path, items.tail)
  {
    hide Retained, VisitNodes, NoDuplicateKeys, CostOf, Height;
    ItemsRetain(VisitNodes(load.nodes, path, items.head), path, items.tail);
  }

  /** The same for the fields of an object; a key costs a token and its own bytes. */
  lemma MapStep(limits: ProbeLimits, load: Load, depth: nat, path: Path, fields: Fields)
    requires fields.Field? && depth > 0 && depth <= limits.maxDepth && Sound(limits, load)
    ensures var next := load.(tokens := load.tokens + 1, decoded := load.decoded + |fields.key|);
      var child := path + [Segment(fields.key)]; var after := AfterVisit(next, depth + 1, child, fields.value);
      && (MapFits(limits, load, depth, path, fields) <==>
            && fields.key !in Keys(fields.rest)
            && Fit(limits.budgets, load.tokens, load.decoded, Cost(1, |fields.key|, |fields.key|))
            && VisitFits(limits, next, depth + 1, child, fields.value)
            && MapFits(limits, after, depth, path, fields.rest))
      && AfterMap(load, path, fields) == AfterMap(after, path, fields.rest)
  {
    hide Retained, VisitNodes, NoDuplicateKeys, CostOf, Height, Segment;
    FieldsRetain(VisitNodes(load.nodes, path + [Segment(fields.key)], fields.value), path, fields.rest);
  }

  lemma SeqEnd(limits: ProbeLimits, load: Load, depth: nat, path: Path)
    requires depth <= limits.maxDepth && Sound(limits, load)
    ensures SeqFits(limits, load, depth, path, NoItems)
      && AfterSeq(load, depth, path, NoItems) == NextRecord(load, depth)
  {
    hide Retained;
  }

  lemma MapEnd(limits: ProbeLimits, load: Load, depth: nat, path: Path)
    requires depth <= limits.maxDepth && Sound(limits, load)
    ensures MapFits(limits, load, depth, path, NoFields) && AfterMap(load, path, NoFields) == load
  {
    hide Retained;
  }

  /** A visit starts with a token and the node. */
  function Entered(load: Load, path: Path, j: Json): Load
  {
    Load(load.tokens + 1, load.decoded + (if j.Arr? || j.Obj? then 0 else CostOf(j).bytes),
      Add(Add(load.nodes, path, NOTHING), path, ScalarStats(j)))
  }

  ghost predicate EnterFits(limits: ProbeLimits, load: Load, depth: nat, path: Path, j: Json)
  {
    && depth <= limits.maxDepth
    && Sound(limits, Entered(load, path, j))
    && (!j.Arr? && !j.Obj? ==> CostOf(j).widest <= limits.budgets.maxScalar)
  }

  /** What is visited between entering a value and recording it. */
  ghost predicate InsideFits(limits: ProbeLimits, load: Load, depth: nat, path: Path, j: Json)
  {
    match j
    case Arr(items) => SeqFits(limits, load, depth, path + ["[]"], items)
    case Obj(fields) => MapFits(limits, load, depth, path, fields)
    case _ => true
  }

  function AfterInside(load: Load, depth: nat, path: Path, j: Json): Load
  {
    match j
    case Arr(items) => AfterSeq(load, depth, path + ["[]"], items)
    case Obj(fields) => AfterMap(load, path, fields)
    case _ => load
  }

  lemma VisitUnfold(nodes: Nodes, path: Path, j: Json)
    ensures var reserved := Add(Add(nodes, path, NOTHING), path, ScalarStats(j));
      match j
      case Arr(items) =>
        && NoDuplicateKeys(j) == NoDuplicatesInItems(items) && Height(j) == 1 + ItemsHeight(items)
        && CostOf(j) == Together(Cost(1, 0, 0), ItemsCost(items))
        && VisitNodes(nodes, path, j) == Add(ItemNodes(reserved, path + ["[]"], items), path, CountStats(j))
      case Obj(fields) =>
        && NoDuplicateKeys(j) == NoDuplicatesInFields(fields) && Height(j) == 1 + FieldsHeight(fields)
        && CostOf(j) == Together(Cost(1, 0, 0), FieldsCost(fields))
        && VisitNodes(nodes, path, j) == Add(FieldNodes(reserved, path, fields), path, CountStats(j))
      case _ =>
        && NoDuplicateKeys(j) && Height(j) == 1 && CostOf(j).tokens == 1
        && VisitNodes(nodes, path, j) == Add(reserved, path, CountStats(j))
  {
    hide Add, CountStats, ScalarStats, NoDuplicatesInItems, NoDuplicatesInFields, ItemsHeight, FieldsHeight,
         ItemsCost, FieldsCost, ItemNodes, FieldNodes;
  }

  lemma VisitSplit(limits: ProbeLimits, load: Load, depth: nat, path: Path, j: Json)
    requires Sound(limits, load) && depth > 0
    ensures var entered := Entered(load, path, j); var inside := AfterInside(entered, depth, path, j);
      && (VisitFits(limits, load, depth, path, j) <==>
            && EnterFits(limits, load, depth, path, j) && InsideFits(limits, entered, depth, path, j)
            && Retained(Add(inside.nodes, path, CountStats(j))) <= limits.maxRetained)
      && AfterVisit(load, depth, path, j) == inside.(nodes := Add(inside.nodes, path, CountStats(j)))
  {
    hide Retained, Add, CountStats, ScalarStats, NoDuplicateKeys, NoDuplicatesInItems, NoDuplicatesInFields, Height,
         ItemsHeight, FieldsHeight, CostOf, ItemsCost, FieldsCost, VisitNodes;
    VisitUnfold(load.nodes, path, j);
    VisitRetains(load.nodes, path, j);
    var reserved := Add(Add(load.nodes, path, NOTHING), path, ScalarStats(j));
    match j {
      case Arr(items) => InsideRetains(ItemNodes(reserved, path + ["[]"], items), path, j);
      case Obj(fields) => InsideRetains(FieldNodes(reserved, path, fields), path, j);
      case _ =>
    }
  }

  lemma InsideRetains(nodes: Nodes, path: Path, j: Json)
    ensures Retained(nodes) <= Retained(Add(nodes, path, CountStats(j)))
  {
    hide Retained, Add, Growth;
    RetainedAdd(nodes, path, CountStats(j));
  }

  // ----- the visitors -----

  /** The visitors of the source, over one shared table of nodes and shared counters. */
  class Prober {
    const limits: ProbeLimits
    const meter: Meter
    var nodes: Nodes
    var retained: nat

    constructor (limits: ProbeLimits, meter: Meter)
      requires meter.limits == limits.budgets && meter.tokens <= limits.budgets.maxTokens && meter.decoded == 0
      ensures this.limits == limits && this.meter == meter && nodes == map[] && Valid()
    {
      this.limits, this.meter, nodes, retained := limits, meter, map[], 0;
    }

    ghost predicate Valid()
      reads this, meter
    {
      meter.limits == limits.budgets && retained == Retained(nodes) && Sound(limits, Now())
    }

    ghost function Now(): Load
      reads this, meter
    {
      Load(meter.tokens, meter.decoded, nodes)
    }

    /** Adds to a node and charges what is new in it, unless that is too much. */
    method AddAt(path: Path, stats: Stats) returns (ok: bool)
      requires retained == Retained(nodes)
      modifies this
      ensures ok <==> Retained(Add(old(nodes), path, stats)) <= limits.maxRetained
      ensures retained == Retained(nodes) && nodes == if ok then Add(old(nodes), path, stats) else old(nodes)
    {
      hide Retained, Growth, Plus;
      RetainedAdd(nodes, path, stats);
      var charged := retained + Growth(nodes, path, stats);
      if charged > limits.maxRetained {
        return false;
      }
      retained := charged;
      nodes := nodes[path := Plus(if path in nodes then nodes[path] else NOTHING, stats)];
      return true;
    }

    /** The start of a visit: a token, the depth, the node, and the bytes and grammars of a scalar. */
    method Enter(j: Json, path: Path, depth: nat) returns (ok: bool)
      requires Valid() && depth > 0
      modifies this, meter
      ensures ok <==> old(EnterFits(limits, Now(), depth, path, j))
      ensures ok ==> Valid() && Now() == old(Entered(Now(), path, j))
    {
      hide Retained, Growth, Plus, Add, ScalarStats, VisitNodes, NoDuplicateKeys;
      VisitRetains(nodes, path, j);
      ok := meter.Token();
      if !ok || depth > limits.maxDepth {
        return false;
      }
      ok := AddAt(path, NOTHING);
      if !ok {
        return false;
      }
      match j {
        case Null => ok := meter.Scalar(1);
        case Bool => ok := meter.Scalar(1);
        case Num(_, _, _) => ok := meter.Scalar(8);
        case Str(s) => ok := meter.Scalar(|s|);
        case _ =>
      }
      if !ok {
        return false;
      }
      ok := AddAt(path, ScalarStats(j));
    }

    /** Succeeds exactly on documents without a repeated key in any object, as far as the budgets last. */
    method Visit(j: Json, path: Path, depth: nat) returns (r: Result<Shape, StructureError>)
      requires Valid() && depth > 0
      modifies this, meter
      ensures r.Ok? <==> old(VisitFits(limits, Now(), depth, path, j))
      ensures r == Err(DuplicateJsonKey) ==> !NoDuplicateKeys(j)
      ensures r.Ok? ==> r.value == ShapeOf(j) && Valid() && Now() == old(AfterVisit(Now(), depth, path, j))
      decreases Size(j), 0
    {
      hide Retained, Plus, Add, ScalarStats, CountStats, VisitFits, SeqFits, MapFits, AfterVisit, AfterSeq, AfterMap,
           Entered;
      VisitSplit(limits, Now(), depth, path, j);
      var entered := Enter(j, path, depth);
      if !entered {
        return Err(LimitExceeded);
      }
      match j {
        case Null => r := Ok(Shapes.Null);
        case Bool => r := Ok(Shapes.Boolean);
        case Num(integer, signed, _) => r := Ok(Shapes.Number(integer, signed));
        case Str(_) => r := Ok(Shapes.String);
        case Arr(items) => r := VisitSeq(items, path + ["[]"], depth);
        case Obj(fields) => r := VisitMap(fields, path, depth);
      }
      if r.Ok? {
        var recorded := AddAt(path, CountStats(j));
        if !recorded {
          return Err(LimitExceeded);
        }
      }
    }

    method VisitSeq(items: Items, path: Path, depth: nat) returns (r: Result<Shape, StructureError>)
      requires Valid() && 0 < depth <= limits.maxDepth
      modifies this, meter
      ensures r.Ok? <==> old(SeqFits(limits, Now(), depth, path, items))
      ensures r == Err(DuplicateJsonKey) ==> !NoDuplicatesInItems(items)
      ensures r.Ok? ==>
        && r.value == Shapes.Array(ItemShape(None, items))
        && Valid() && Now() == old(AfterSeq(Now(), depth, path, items))
      decreases ItemsSize(items), 1
    {
      hide Retained, VisitFits, SeqFits, AfterVisit, AfterSeq, ShapeOf;
      var rest := items;
      var shape: Option<Shape> := None;
      while rest.Item?
        invariant Valid() && ItemsSize(rest) <= ItemsSize(items)
        invariant NoDuplicatesInItems(items) ==> NoDuplicatesInItems(rest)
        invariant ItemShape(shape, rest) == ItemShape(None, items)
        invariant SeqFits(limits, Now(), depth, path, rest) <==> old(SeqFits(limits, Now(), depth, path, items))
        invariant AfterSeq(Now(), depth, path, rest) == old(AfterSeq(Now(), depth, path, items))
        decreases ItemsSize(rest)
      {
        SeqStep(limits, Now(), depth, path, rest);
        if depth == 1 {
          meter.Reset();
        }
        var next := Visit(rest.head, path, depth + 1);
        if next.Err? {
          return next;
        }
        shape := Shapes.MergeOption(shape, Some(next.value));
        rest := rest.tail;
      }
      SeqEnd(limits, Now(), depth, path);
      if depth == 1 {
        meter.Reset();
      }
      return Ok(Shapes.Array(shape));
    }

    method VisitMap(fields: Fields, path: Path, depth: nat) returns (r: Result<Shape, StructureError>)
      requires Valid() && 0 < depth <= limits.maxDepth
      modifies this, meter
      ensures r.Ok? <==> old(MapFits(limits, Now(), depth, path, fields))
      ensures r == Err(DuplicateJsonKey) ==> !NoDuplicatesInFields(fields)
      ensures r.Ok? ==>
        && r.value == Shapes.Object(FieldShapes(map[], fields))
        && Valid() && Now() == old(AfterMap(Now(), path, fields))
      decreases FieldsSize(fields), 1
    {
      hide Segment, ShapeOf, NoDuplicateKeys, Retained, VisitFits, MapFits, AfterVisit, AfterMap;
      var rest := fields;
      var known: map<string, Shape> := map[];
      while rest.Field?
        invariant Valid() && FieldsSize(rest) <= FieldsSize(fields)
        invariant NoDuplicatesInFields(fields) ==> known.Keys !! Keys(rest) && NoDuplicatesInFields(rest)
        invariant FieldShapes(known, rest) == FieldShapes(map[], fields)
        invariant MapFits(limits, Now(), depth, path, rest) && known.Keys !! Keys(rest)
          <==> old(MapFits(limits, Now(), depth, path, fields))
        invariant AfterMap(Now(), path, rest) == old(AfterMap(Now(), path, fields))
        decreases FieldsSize(rest)
      {
        MapStep(limits, Now(), depth, path, rest);
        var keyed := meter.Token();
        if keyed {
          keyed := meter.Scalar(|rest.key|);
        }
        if !keyed {
          return Err(LimitExceeded);
        }
        if rest.key in known {
          return Err(DuplicateJsonKey);
        }
        var shape := Visit(rest.value, path + [Segment(rest.key)], depth + 1);
        if shape.Err? {
          return shape;
        }
        known := known[rest.key := shape.value];
        rest := rest.rest;
      }
      MapEnd(limits, Now(), depth, path);
      return Ok(Shapes.Object(known));
    }
  }

  // ----- what the table of nodes says -----

  /** `path` starts with `base`. */
  predicate Under(base: Path, path: Path)
  {
    |base| <= |path| && path[..|base|] == base
  }

  function ValuesUnder(j: Json, base: Path, path: Path): seq<Json>
  {
    if Under(base, path) then ValuesAt(j, path[|base|..]) else []
  }

  function ItemValuesUnder(items: Items, base: Path, path: Path): seq<Json>
  {
    if Under(base, path) then ItemValues(items, path[|base|..]) else []
  }

  function FieldValuesUnder(fields: Fields, base: Path, path: Path): seq<Json>
  {
    if Under(base, path) && |path| > |base| then FieldValues(fields, path[|base|..]) else []
  }

  lemma PlusLaws(a: Stats, b: Stats, c: Stats)
    ensures Plus(a, b) == Plus(b, a)
    ensures Plus(Plus(a, b), c) == Plus(a, Plus(b, c))
    ensures Plus(a, NOTHING) == a && Plus(NOTHING, a) == a
  {
  }

  lemma {:induction false} SummaryAppend(a: seq<Json>, b: seq<Json>)
    ensures Summary(a + b) == Plus(Summary(a), Summary(b))
    decreases |a|
  {
    hide Plus, OneStats;
    if |a| == 0 {
      assert a + b == b;
      PlusLaws(Summary(b), NOTHING, NOTHING);
    } else {
      assert (a + b)[1..] == a[1..] + b;
      SummaryAppend(a[1..], b);
      PlusLaws(OneStats(a[0]), Summary(a[1..]), Summary(b));
    }
  }

  lemma SummaryOne(j: Json)
    ensures Summary([j]) == OneStats(j) && Summary([]) == NOTHING
  {
    PlusLaws(OneStats(j), NOTHING, NOTHING);
  }

  lemma UnderChild(base: Path, segment: string, path: Path)
    ensures Under(base + [segment], path) <==> Under(base, path) && |path| > |base| && path[|base|] == segment
    ensures Under(base + [segment], path) ==> path[|base + [segment]|..] == path[|base|..][1..]
  {
    var n := |base|;
    if |path| > n { assert path[..n + 1] == path[..n] + [path[n]]; }
  }

  /** The node of every path gains exactly the summary of the values visited there. */
  ghost predicate Gains(before: Nodes, after: Nodes, path: Path, values: seq<Json>)
  {
    && At(after, path) == Plus(At(before, path), Summary(values))
    && (path in after <==> path in before || values != [])
  }

  lemma GainsTrans(a: Nodes, b: Nodes, c: Nodes, path: Path, v: seq<Json>, w: seq<Json>)
    requires Gains(a, b, path, v) && Gains(b, c, path, w)
    ensures Gains(a, c, path, v + w)
  {
    hide Plus, Summary;
    SummaryAppend(v, w);
    PlusLaws(At(a, path), Summary(v), Summary(w));
  }

  lemma GainsNothing(nodes: Nodes, path: Path)
    ensures Gains(nodes, nodes, path, [])
  {
    hide Plus, At, Summary;
    SummaryOne(Null);
    PlusLaws(At(nodes, path), NOTHING, NOTHING);
  }

  lemma {:induction false} ItemNodesGain(nodes: Nodes, base: Path, items: Items, path: Path)
    ensures Gains(nodes, ItemNodes(nodes, base, items), path, ItemValuesUnder(items, base, path))
    decreases items
  {
    hide Gains, VisitNodes;
    GainsNothing(nodes, path);
    if items.Item? {
      var next := VisitNodes(nodes, base, items.head);
      VisitNodesGain(nodes, base, items.head, path);
      ItemNodesGain(next, base, items.tail, path);
      GainsTrans(nodes, next, ItemNodes(nodes, base, items), path,
        ValuesUnder(items.head, base, path), ItemValuesUnder(items.tail, base, path));
      assert [] + [] == ItemValuesUnder(items, base, path) || Under(base, path);
    }
  }

  lemma {:induction false} FieldNodesGain(nodes: Nodes, base: Path, fields: Fields, path: Path)
    ensures Gains(nodes, FieldNodes(nodes, base, fields), path, FieldValuesUnder(fields, base, path))
    decreases fields
  {
    hide Gains, VisitNodes, Segment;
    GainsNothing(nodes, path);
    if fields.Field? {
      var child := base + [Segment(fields.key)];
      var next := VisitNodes(nodes, child, fields.value);
      VisitNodesGain(nodes, child, fields.value, path);
      FieldNodesGain(next, base, fields.rest, path);
      GainsTrans(nodes, next, FieldNodes(nodes, base, fields), path,
        ValuesUnder(fields.value, child, path), FieldValuesUnder(fields.rest, base, path));
      UnderChild(base, Segment(fields.key), path);
      assert ValuesUnder(fields.value, child, path) + FieldValuesUnder(fields.rest, base, path)
          == FieldValuesUnder(fields, base, path);
    }
  }

  /** The values below a node, without the value at the node itself. */
  function Below(j: Json, base: Path, path: Path): seq<Json>
  {
    match j
    case Arr(items) => ItemValuesUnder(items, base + ["[]"], path)
    case Obj(fields) => FieldValuesUnder(fields, base, path)
    case _ => []
  }

  lemma BelowIsRest(j: Json, base: Path, path: Path)
    ensures path != base ==> Below(j, base, path) == ValuesUnder(j, base, path)
    ensures path == base ==> Below(j, base, path) == [] && ValuesUnder(j, base, path) == [j]
  {
    UnderChild(base, "[]", path);
    if Under(base, path) && |path| == |base| { assert path == base; }
  }

  lemma {:induction false} VisitNodesGain(nodes: Nodes, base: Path, j: Json, path: Path)
    ensures Gains(nodes, VisitNodes(nodes, base, j), path, ValuesUnder(j, base, path))
    decreases j
  {
    hide Summary, Plus, CountStats, ScalarStats, Under;
    var reserved := Add(Add(nodes, base, NOTHING), base, ScalarStats(j));
    var visited := match j
      case Arr(items) => ItemNodes(reserved, base + ["[]"], items)
      case Obj(fields) => FieldNodes(reserved, base, fields)
      case _ => reserved;
    match j {
      case Arr(items) => ItemNodesGain(reserved, base + ["[]"], items, path);
      case Obj(fields) => FieldNodesGain(reserved, base, fields, path);
      case _ => GainsNothing(reserved, path);
    }
    assert Gains(reserved, visited, path, Below(j, base, path));
    BelowIsRest(j, base, path);
    if path == base {
      var was := At(nodes, path);
      PlusLaws(was, NOTHING, NOTHING);
      SummaryOne(j);
      PlusLaws(Plus(was, ScalarStats(j)), NOTHING, NOTHING);
      PlusLaws(was, ScalarStats(j), CountStats(j));
    }
  }

  /** The whole probe: the node of a path holds the summary of exactly the values found by
      following the path from the root, and exists exactly when there are any. */
  lemma NodesMeanValues(j: Json, path: Path)
    ensures At(VisitNodes(map[], [], j), path) == Summary(ValuesAt(j, path))
    ensures path in VisitNodes(map[], [], j) <==> ValuesAt(j, path) != []
  {
    hide VisitNodes, Summary, ValuesAt, Plus;
    var none: Nodes := map[];
    VisitNodesGain(none, [], j, path);
    assert path[0..] == path && path[..0] == [];
    assert At(none, path) == NOTHING;
    PlusLaws(Summary(ValuesAt(j, path)), NOTHING, NOTHING);
  }
}
