/** The second, streaming pass over a transcript: typed records in document order, handed to a sink. */
module Reader {
  import opened Budgets
  import opened Calendar
  import opened Decimal
  import opened Options
  import opened Profile
  import opened Snowflake
  import opened Structure

  /** `InvalidJson` stands for a value of the wrong JSON type. */
  datatype ReadError = InvalidRecord | DuplicateKey | InvalidJson | OverBudget | Refused

  datatype SentMessage = SentMessage(id: string, timestampMillis: int, contents: string, attachments: string)

  datatype Key = Id | Timestamp | Contents | Attachments | Author | OtherKey

  function KeyOf(name: string): Key
  {
    if name == "ID" then Id
    else if name == "Timestamp" then Timestamp
    else if name == "Contents" then Contents
    else if name == "Attachments" then Attachments
    else if name in {"author", "Author", "author_id", "authorId", "AuthorID"} then Author
    else OtherKey
  }

  /** The optional fields filled while the keys of one record go by. */
  datatype Partial = Partial(id: Option<string>, timestamp: Option<string>, contents: Option<string>,
    attachments: Option<string>)

  const EMPTY := Partial(None, None, None, None)

  predicate Seen(p: Partial, key: Key)
  {
    match key
    case Id => p.id.Some?
    case Timestamp => p.timestamp.Some?
    case Contents => p.contents.Some?
    case Attachments => p.attachments.Some?
    case _ => false
  }

  /** An identifier is an unsigned number written canonically; it is parsed, printed again
      and checked. */
  function ReadId(value: Json): Result<string, ReadError>
  {
    if !(value.Num? && value.integer && !value.signed) then Err(InvalidJson)
    else if Classify(value.text) != CanonicalPositiveU64Decimal then Err(InvalidRecord)
    else
      IdentifierIsPrint(value.text);
      match ParseId(Print(Number(value.text)))
      case Ok(id) => Ok(id)
      case Err(_) => Err(InvalidRecord)
  }

  function ReadText(value: Json): Result<string, ReadError>
  {
    if value.Str? then Ok(value.s) else Err(InvalidJson)
  }

  function Store(p: Partial, key: Key, text: string): Partial
  {
    match key
    case Id => p.(id := Some(text))
    case Timestamp => p.(timestamp := Some(text))
    case Contents => p.(contents := Some(text))
    case Attachments => p.(attachments := Some(text))
    case _ => p
  }

  /** One key and its value. */
  function ReadField(p: Partial, name: string, value: Json): Result<Partial, ReadError>
  {
    var key := KeyOf(name);
    if key == OtherKey then Ok(p)
    else if key == Author then Err(InvalidRecord)
    else if Seen(p, key) then Err(DuplicateKey)
    else
      match (if key == Id then ReadId(value) else ReadText(value))
      case Ok(text) => Ok(Store(p, key, text))
      case Err(e) => Err(e)
  }

  /** Why a key is refused: it names an author, one of the four keys comes again, its value has the wrong type, or
      an identifier is not written canonically. */
  lemma FieldErrors(p: Partial, name: string, value: Json)
    ensures ReadField(p, name, value) == Err(DuplicateKey) <==>
      || (name == "ID" && p.id.Some?) || (name == "Timestamp" && p.timestamp.Some?)
      || (name == "Contents" && p.contents.Some?) || (name == "Attachments" && p.attachments.Some?)
    ensures ReadField(p, name, value) == Err(InvalidJson) <==>
      || (name == "ID" && p.id.None? && !(value.Num? && value.integer && !value.signed))
      || (name == "Timestamp" && p.timestamp.None? && !value.Str?)
      || (name == "Contents" && p.contents.None? && !value.Str?)
      || (name == "Attachments" && p.attachments.None? && !value.Str?)
    ensures ReadField(p, name, value) == Err(InvalidRecord) <==>
      || name == "author" || name == "Author" || name == "author_id" || name == "authorId" || name == "AuthorID"
      || (name == "ID" && p.id.None? && value.Num? && value.integer && !value.signed
          && Classify(value.text) != CanonicalPositiveU64Decimal)
    ensures ReadField(p, name, value).Err? ==>
      ReadField(p, name, value).error in {DuplicateKey, InvalidJson, InvalidRecord}
  {
    hide Classify, Print, Number;
    KeyOfFour(name);
    if value.Num? && Classify(value.text) == CanonicalPositiveU64Decimal { IdentifierIsPrint(value.text); }
  }

  lemma KeyOfFour(name: string)
    ensures KeyOf(name) == Id <==> name == "ID"
    ensures KeyOf(name) == Timestamp <==> name == "Timestamp"
    ensures KeyOf(name) == Contents <==> name == "Contents"
    ensures KeyOf(name) == Attachments <==> name == "Attachments"
    ensures KeyOf(name) == Author <==>
      name == "author" || name == "Author" || name == "author_id" || name == "authorId" || name == "AuthorID"
  {
    assert "ID"[0] == 'I' && "Timestamp"[0] == 'T' && "Contents"[0] == 'C' && "Attachments"[0] == 'A';
    assert "author"[0] == 'a' && "Author"[1] == 'u' && "author_id"[0] == 'a' && "authorId"[0] == 'a'
      && "AuthorID"[1] == 'u';
    assert "Attachments"[1] == 't';
  }

  function ReadFields(p: Partial, fields: Fields): Result<Partial, ReadError>
    decreases fields
  {
    match fields
    case NoFields => Ok(p)
    case Field(name, value, rest) =>
      match ReadField(p, name, value)
      case Ok(next) => ReadFields(next, rest)
      case Err(e) => Err(e)
  }

  function Finish(p: Partial): Result<SentMessage, ReadError>
  {
    if p.id.None? || p.timestamp.None? then Err(InvalidRecord)
    else if ParseId(p.id.value).Err? then Err(InvalidRecord)
    else if TimestampMillis(p.id.value, p.timestamp.value).Err? then Err(InvalidRecord)
    else if p.contents.None? || p.attachments.None? then Err(InvalidRecord)
    else Ok(SentMessage(p.id.value, TimestampMillis(p.id.value, p.timestamp.value).value, p.contents.value,
      p.attachments.value))
  }

  lemma FinishErrors(p: Partial)
    ensures Finish(p).Err? ==> Finish(p).error == InvalidRecord
  {
    hide ParseId, TimestampMillis;
  }

  function ReadMessage(j: Json): Result<SentMessage, ReadError>
  {
    if !j.Obj? then Err(InvalidJson)
    else match ReadFields(EMPTY, j.fields)
      case Ok(p) => Finish(p)
      case Err(e) => Err(e)
  }

  /** The records of the items before the first rejected one. */
  function Accepted(items: Items): seq<SentMessage>
  {
    if items.Item? && ReadMessage(items.head).Ok? then [ReadMessage(items.head).value] + Accepted(items.tail) else []
  }

  predicate AllReadable(items: Items)
  {
    items.Item? ==> ReadMessage(items.head).Ok? && AllReadable(items.tail)
  }

  // ----- the visitors of the source, with their counters -----

  /** So much was paid since the counters stood like this. */
  twostate predicate Paid(meter: Meter, cost: Cost)
    reads meter
  {
    && meter.tokens == old(meter.tokens) + cost.tokens && meter.decoded == old(meter.decoded) + cost.bytes
    && meter.tokens <= meter.limits.maxTokens && meter.decoded <= meter.limits.maxDecoded
  }

  ghost predicate InBudget(meter: Meter)
    reads meter
  {
    meter.tokens <= meter.limits.maxTokens && meter.decoded <= meter.limits.maxDecoded
  }

  /** A key: a token and its bytes. */
  method ReadKey(name: string, meter: Meter) returns (ok: bool)
    requires InBudget(meter)
    modifies meter
    ensures ok <==> old(meter.Fits(Cost(1, |name|, |name|)))
    ensures ok ==> Paid(meter, Cost(1, |name|, |name|))
  {
    ok := meter.Token();
    if ok {
      ok := meter.Scalar(|name|);
    }
  }

  /** A value that is only counted. */
  method SkipValue(j: Json, meter: Meter) returns (ok: bool)
    requires InBudget(meter)
    modifies meter
    ensures ok <==> old(meter.Fits(CostOf(j)))
    ensures ok ==> Paid(meter, CostOf(j))
    decreases Size(j), 0
  {
    hide ItemsCost, FieldsCost, ItemsSize, FieldsSize;
    ok := meter.Token();
    if !ok {
      return false;
    }
    match j {
      case Null => ok := meter.Scalar(1);
      case Bool => ok := meter.Scalar(1);
      case Num(_, _, _) => ok := meter.Scalar(8);
      case Str(s) => ok := meter.Scalar(|s|);
      case Arr(items) => ok := SkipItems(items, meter);
      case Obj(fields) => ok := SkipFields(fields, meter);
    }
  }

  method SkipItems(items: Items, meter: Meter) returns (ok: bool)
    requires InBudget(meter)
    modifies meter
    ensures ok <==> old(meter.Fits(ItemsCost(items)))
    ensures ok ==> Paid(meter, ItemsCost(items))
    decreases ItemsSize(items), 1
  {
    hide CostOf, ItemsCost;
    var rest := items;
    while rest.Item?
      invariant ItemsSize(rest) <= ItemsSize(items) && InBudget(meter)
      invariant meter.Fits(ItemsCost(rest)) <==> old(meter.Fits(ItemsCost(items)))
      invariant meter.tokens + ItemsCost(rest).tokens == old(meter.tokens) + ItemsCost(items).tokens
      invariant meter.decoded + ItemsCost(rest).bytes == old(meter.decoded) + ItemsCost(items).bytes
      decreases ItemsSize(rest)
    {
      CostOfRest(rest);
      ok := SkipValue(rest.head, meter);
      if !ok {
        return false;
      }
      rest := rest.tail;
    }
    CostOfRest(rest);
    return true;
  }

  lemma CostOfOthers(fields: Fields)
    ensures FieldsCost(fields) ==
      if fields.NoFields? then Cost(0, 0, 0)
      else Together(Together(Cost(1, |fields.key|, |fields.key|), CostOf(fields.value)), FieldsCost(fields.rest))
  {
  }

  lemma CostOfRest(items: Items)
    ensures ItemsCost(items) ==
      if items.NoItems? then Cost(0, 0, 0) else Together(CostOf(items.head), ItemsCost(items.tail))
  {
  }

  method SkipFields(fields: Fields, meter: Meter) returns (ok: bool)
    requires InBudget(meter)
    modifies meter
    ensures ok <==> old(meter.Fits(FieldsCost(fields)))
    ensures ok ==> Paid(meter, FieldsCost(fields))
    decreases FieldsSize(fields), 1
  {
    hide CostOf, FieldsCost;
    var rest := fields;
    while rest.Field?
      invariant FieldsSize(rest) <= FieldsSize(fields) && InBudget(meter)
      invariant meter.Fits(FieldsCost(rest)) <==> old(meter.Fits(FieldsCost(fields)))
      invariant meter.tokens + FieldsCost(rest).tokens == old(meter.tokens) + FieldsCost(fields).tokens
      invariant meter.decoded + FieldsCost(rest).bytes == old(meter.decoded) + FieldsCost(fields).bytes
      decreases FieldsSize(rest)
    {
      CostOfOthers(rest);
      ok := ReadKey(rest.key, meter);
      if ok {
        ok := SkipValue(rest.value, meter);
      }
      if !ok {
        return false;
      }
      rest := rest.rest;
    }
    CostOfOthers(rest);
    return true;
  }

  /** One value after its key has been read. */
  method ReadValue(p: Partial, name: string, value: Json, meter: Meter) returns (r: Result<Partial, ReadError>)
    requires InBudget(meter)
    modifies meter
    ensures r.Ok? <==> ReadField(p, name, value).Ok? && old(meter.Fits(CostOf(value)))
    ensures r.Ok? ==> r == ReadField(p, name, value) && Paid(meter, CostOf(value))
    ensures r.Err? && r.error != OverBudget ==> r == ReadField(p, name, value)
  {
    hide Classify, Print, Number;
    var key := KeyOf(name);
    if key == OtherKey {
      var skipped := SkipValue(value, meter);
      return if skipped then Ok(p) else Err(OverBudget);
    }
    if key == Author {
      return Err(InvalidRecord);
    }
    if Seen(p, key) {
      return Err(DuplicateKey);
    }
    var ok := meter.Token();
    if !ok {
      return Err(OverBudget);
    }
    if key == Id {
      if !(value.Num? && value.integer && !value.signed) {
        return Err(InvalidJson);
      }
      ok := meter.Scalar(8);
    } else {
      if !value.Str? {
        return Err(InvalidJson);
      }
      ok := meter.Scalar(|value.s|);
    }
    if !ok {
      return Err(OverBudget);
    }
    return ReadField(p, name, value);
  }

  /** The key loop of a record. */
  method ReadKeys(fields: Fields, meter: Meter) returns (r: Result<Partial, ReadError>)
    requires InBudget(meter)
    modifies meter
    ensures r.Ok? <==> ReadFields(EMPTY, fields).Ok? && old(meter.Fits(FieldsCost(fields)))
    ensures r.Ok? ==> r == ReadFields(EMPTY, fields) && Paid(meter, FieldsCost(fields))
    ensures r.Err? && r.error != OverBudget ==> r == ReadFields(EMPTY, fields)
  {
    hide ReadField, CostOf, FieldsCost;
    var rest := fields;
    var partial := EMPTY;
    while rest.Field?
      invariant InBudget(meter)
      invariant ReadFields(partial, rest) == ReadFields(EMPTY, fields)
      invariant meter.Fits(FieldsCost(rest)) <==> old(meter.Fits(FieldsCost(fields)))
      invariant meter.tokens + FieldsCost(rest).tokens == old(meter.tokens) + FieldsCost(fields).tokens
      invariant meter.decoded + FieldsCost(rest).bytes == old(meter.decoded) + FieldsCost(fields).bytes
      decreases FieldsSize(rest)
    {
      CostOfOthers(rest);
      var ok := ReadKey(rest.key, meter);
      if !ok {
        return Err(OverBudget);
      }
      var next := ReadValue(partial, rest.key, rest.value, meter);
      if next.Err? {
        return next;
      }
      partial := next.value;
      rest := rest.rest;
    }
    CostOfOthers(rest);
    return Ok(partial);
  }

  /** A record: its keys, and then what it needs of them. */
  method ReadRecord(j: Json, meter: Meter) returns (r: Result<SentMessage, ReadError>)
    requires InBudget(meter)
    modifies meter
    ensures r.Ok? <==> ReadMessage(j).Ok? && old(meter.Fits(CostOf(j)))
    ensures r.Ok? ==> r == ReadMessage(j) && Paid(meter, CostOf(j))
    ensures r.Err? && r.error != OverBudget ==> r == ReadMessage(j)
  {
    hide ReadFields, Finish, CostOf, FieldsCost;
    CostOfFields(j);
    var ok := meter.Token();
    if !ok {
      return Err(OverBudget);
    }
    if !j.Obj? {
      return Err(InvalidJson);
    }
    var partial := ReadKeys(j.fields, meter);
    if partial.Err? {
      return Err(partial.error);
    }
    r := Finish(partial.value);
  }

  lemma CostOfFields(j: Json)
    ensures CostOf(j).tokens >= 1
    ensures j.Obj? ==> CostOf(j) == Together(Cost(1, 0, 0), FieldsCost(j.fields))
  {
  }

  /** A sink is handed a record after the ones before it, and takes or refuses it. */
  type Sink = seq<SentMessage> -> bool

  /** The records handed to the sink, after those sent already: each one read within the budgets, up to the first
      that is not, or that the sink refuses. */
  function Handed(limits: Limits, tokens: nat, items: Items, sent: seq<SentMessage>, sink: Sink): seq<SentMessage>
    decreases items
  {
    if items.NoItems? || ReadMessage(items.head).Err? || !Fit(limits, tokens, 0, CostOf(items.head)) then sent
    else
      var more := sent + [ReadMessage(items.head).value];
      if sink(more) then Handed(limits, tokens + CostOf(items.head).tokens, items.tail, more, sink) else more
  }

  /** Every record is read within the budgets and taken. */
  predicate AllTaken(limits: Limits, tokens: nat, items: Items, sent: seq<SentMessage>, sink: Sink)
    decreases items
  {
    items.Item? ==>
      && ReadMessage(items.head).Ok? && Fit(limits, tokens, 0, CostOf(items.head))
      && var more := sent + [ReadMessage(items.head).value];
         sink(more) && AllTaken(limits, tokens + CostOf(items.head).tokens, items.tail, more, sink)
  }

  /** The record loop: the whole transcript is read exactly if it is an array, its records are readable within
      the budgets, and the sink takes every one; in any case the sink was handed the records up to the first
      failure, in order. */
  method ReadTranscript(j: Json, meter: Meter, sink: Sink) returns (r: Result<nat, ReadError>, handed: seq<SentMessage>)
    requires InBudget(meter)
    modifies meter
    ensures var limits, tokens := meter.limits, old(meter.tokens) + 1;
      var started := tokens <= limits.maxTokens && j.Arr?;
      && (r.Ok? <==> started && AllTaken(limits, tokens, j.items, [], sink))
      && (r.Ok? ==> r.value == |handed| && meter.tokens == old(meter.tokens) + CostOf(j).tokens)
      && handed == if started then Handed(limits, tokens, j.items, [], sink) else []
  {
    hide ReadMessage, CostOf;
    CostOfItems(j);
    handed := [];
    var ok := meter.Token();
    if !ok {
      return Err(OverBudget), handed;
    }
    if !j.Arr? {
      return Err(InvalidJson), handed;
    }
    var rest := j.items;
    var count := 0;
    while rest.Item?
      invariant meter.tokens <= meter.limits.maxTokens && count == |handed|
      invariant meter.tokens + ItemsCost(rest).tokens == old(meter.tokens) + CostOf(j).tokens
      invariant Handed(meter.limits, meter.tokens, rest, handed, sink)
        == Handed(meter.limits, old(meter.tokens) + 1, j.items, [], sink)
      invariant AllTaken(meter.limits, meter.tokens, rest, handed, sink)
        <==> AllTaken(meter.limits, old(meter.tokens) + 1, j.items, [], sink)
      decreases ItemsSize(rest)
    {
      meter.Reset();
      var message := ReadRecord(rest.head, meter);
      if message.Err? {
        return Err(message.error), handed;
      }
      handed := handed + [message.value];
      if !sink(handed) {
        return Err(Refused), handed;
      }
      count := count + 1;
      rest := rest.tail;
    }
    return Ok(count), handed;
  }

  lemma CostOfItems(j: Json)
    ensures j.Arr? ==> CostOf(j) == Together(Cost(1, 0, 0), ItemsCost(j.items))
  {
  }

  /** The sink takes each of these records after the ones before it. */
  ghost predicate Takes(sink: Sink, sent: seq<SentMessage>, records: seq<SentMessage>)
  {
    forall k :: 0 < k <= |records| ==> sink(sent + records[..k])
  }

  /** All records are taken exactly if every one is readable, the tokens last for all of them, each one stays
      within its own budgets, and the sink takes them; and then these are the records handed over. */
  lemma {:induction false} AllTakenMeans(limits: Limits, tokens: nat, items: Items, sent: seq<SentMessage>, sink: Sink)
    requires tokens <= limits.maxTokens
    ensures AllTaken(limits, tokens, items, sent, sink) <==>
      && AllReadable(items) && tokens + ItemsCost(items).tokens <= limits.maxTokens && EachFits(limits, items)
      && Takes(sink, sent, Accepted(items))
    ensures AllTaken(limits, tokens, items, sent, sink) ==>
      Handed(limits, tokens, items, sent, sink) == sent + Accepted(items)
    decreases items
  {
    hide ReadMessage, CostOf;
    if items.Item? {
      if ReadMessage(items.head).Ok? {
        var first := ReadMessage(items.head).value;
        TakesNext(sink, sent, first, Accepted(items.tail));
        if tokens + CostOf(items.head).tokens <= limits.maxTokens {
          AllTakenMeans(limits, tokens + CostOf(items.head).tokens, items.tail, sent + [first], sink);
        }
      }
    }
  }

  lemma TakesNext(sink: Sink, sent: seq<SentMessage>, first: SentMessage, rest: seq<SentMessage>)
    ensures Takes(sink, sent, [first] + rest) <==> sink(sent + [first]) && Takes(sink, sent + [first], rest)
    ensures sent + ([first] + rest) == (sent + [first]) + rest
  {
    var all := [first] + rest;
    assert all[..1] == [first];
    assert forall k :: 0 <= k <= |rest| ==> all[..k + 1] == [first] + rest[..k];
    assert forall k :: 0 <= k <= |rest| ==> sent + all[..k + 1] == (sent + [first]) + rest[..k];
    if sink(sent + [first]) && Takes(sink, sent + [first], rest) {
      forall k | 0 < k <= |all| ensures sink(sent + all[..k]) {
        if k > 1 { assert sink((sent + [first]) + rest[..k - 1]); }
      }
    }
    if Takes(sink, sent, all) {
      forall k | 0 < k <= |rest| ensures sink((sent + [first]) + rest[..k]) {
        assert sink(sent + all[..k + 1]);
      }
    }
  }

  // ----- what the reader accepts -----

  /** All values of a key, in document order. */
  function ValuesOf(fields: Fields, name: string): seq<Json>
  {
    match fields
    case NoFields => []
    case Field(key, value, rest) => (if key == name then [value] else []) + ValuesOf(rest, name)
  }

  const READ_KEYS := {"ID", "Timestamp", "Contents", "Attachments"}

  predicate NoAuthor(fields: Fields)
  {
    forall name | name in Keys(fields) :: KeyOf(name) != Author
  }

  /** What one value must be for its key. */
  predicate ValueFits(name: string, value: Json)
  {
    && (name == "ID" ==> CanonicalId(value))
    && (name == "Timestamp" || name == "Contents" || name == "Attachments" ==> value.Str?)
  }

  predicate AllFit(fields: Fields)
  {
    fields.Field? ==> ValueFits(fields.key, fields.value) && AllFit(fields.rest)
  }

  function Stored(p: Partial, name: string): Option<string>
  {
    if name == "ID" then p.id else if name == "Timestamp" then p.timestamp
    else if name == "Contents" then p.contents else if name == "Attachments" then p.attachments else None
  }

  /** Each of the four keys comes at most once, counting what is stored already. */
  predicate AtMostOnce(p: Partial, fields: Fields)
  {
    forall name | name in READ_KEYS :: |ValuesOf(fields, name)| <= if Stored(p, name).Some? then 0 else 1
  }

  function TextOfKey(known: Option<string>, fields: Fields, key: string): Option<string>
  {
    if known.Some? then known
    else match Lookup(fields, key)
      case Some(Str(s)) => Some(s)
      case Some(Num(_, _, text)) => Some(text)
      case _ => None
  }

  lemma ReadIdMeans(value: Json)
    ensures ReadId(value).Ok? <==> CanonicalId(value)
    ensures ReadId(value).Ok? ==> ReadId(value).value == value.text && ParseId(value.text).Ok?
  {
    hide Classify, Print, Number;
    if value.Num? && Classify(value.text) == CanonicalPositiveU64Decimal {
      IdentifierIsPrint(value.text);
    }
  }

  lemma StepAccepts(p: Partial, fields: Fields)
    requires fields.Field?
    ensures ReadField(p, fields.key, fields.value).Ok? <==>
      && KeyOf(fields.key) != Author && ValueFits(fields.key, fields.value)
      && (fields.key in READ_KEYS ==> Stored(p, fields.key).None?)
  {
    hide ReadId, CanonicalId;
    ReadIdMeans(fields.value);
  }

  lemma StepStores(p: Partial, fields: Fields, name: string)
    requires fields.Field? && name in READ_KEYS && ReadField(p, fields.key, fields.value).Ok?
    ensures var next := ReadField(p, fields.key, fields.value).value;
      && TextOfKey(Stored(next, name), fields.rest, name) == TextOfKey(Stored(p, name), fields, name)
      && (Stored(next, name).Some? <==> Stored(p, name).Some? || fields.key == name)
      && (fields.key == name ==> Stored(p, name).None?)
  {
    hide ReadId, Classify;
    ReadIdMeans(fields.value);
  }

  lemma StepOnce(p: Partial, fields: Fields)
    requires fields.Field? && ReadField(p, fields.key, fields.value).Ok?
    ensures AtMostOnce(p, fields) <==> AtMostOnce(ReadField(p, fields.key, fields.value).value, fields.rest)
  {
    hide ReadField, TextOfKey, Stored;
    forall name | name in READ_KEYS
      ensures var next := ReadField(p, fields.key, fields.value).value;
        && (Stored(next, name).Some? <==> Stored(p, name).Some? || fields.key == name)
        && (fields.key == name ==> Stored(p, name).None?)
    {
      StepStores(p, fields, name);
    }
  }

  /** The reader accepts the keys of a record exactly when no key names an author, every value is what its key
      wants, and none of its four keys comes twice; other keys may repeat. */
  lemma {:induction false} ReadFieldsMeans(p: Partial, fields: Fields)
    ensures ReadFields(p, fields).Ok? <==> NoAuthor(fields) && AllFit(fields) && AtMostOnce(p, fields)
    ensures ReadFields(p, fields).Ok? ==>
      ReadFields(p, fields).value == Partial(
        TextOfKey(p.id, fields, "ID"), TextOfKey(p.timestamp, fields, "Timestamp"),
        TextOfKey(p.contents, fields, "Contents"), TextOfKey(p.attachments, fields, "Attachments"))
    decreases fields
  {
    if fields.Field? {
      hide ReadField, ValueFits, TextOfKey, Lookup, KeyOf, AtMostOnce;
      StepAccepts(p, fields);
      assert AtMostOnce(p, fields) ==> fields.key in READ_KEYS ==> Stored(p, fields.key).None? by {
        KeyIsThere(p, fields);
      }
      if ReadField(p, fields.key, fields.value).Ok? {
        StepStores(p, fields, "ID");
        StepStores(p, fields, "Timestamp");
        StepStores(p, fields, "Contents");
        StepStores(p, fields, "Attachments");
        StepOnce(p, fields);
        ReadFieldsMeans(ReadField(p, fields.key, fields.value).value, fields.rest);
      }
    } else {
      NoFieldsLeft(p);
    }
  }

  lemma KeyIsThere(p: Partial, fields: Fields)
    requires fields.Field?
    ensures AtMostOnce(p, fields) && fields.key in READ_KEYS ==> Stored(p, fields.key).None?
  {
    hide Stored;
    assert |ValuesOf(fields, fields.key)| > 0;
  }

  lemma NoFieldsLeft(p: Partial)
    ensures NoAuthor(NoFields) && AllFit(NoFields) && AtMostOnce(p, NoFields)
    ensures forall known: Option<string>, key: string :: TextOfKey(known, NoFields, key) == known
  {
  }

  // ----- the records that the reader accepts -----

  predicate TextIfAny(fields: Fields, key: string)
  {
    Lookup(fields, key).Some? ==> Lookup(fields, key).value.Str?
  }

  predicate Typed(fields: Fields)
  {
    && (Lookup(fields, "ID").Some? ==> CanonicalId(Lookup(fields, "ID").value))
    && TextIfAny(fields, "Timestamp") && TextIfAny(fields, "Contents") && TextIfAny(fields, "Attachments")
  }

  lemma {:induction false} NoValues(fields: Fields, name: string)
    ensures ValuesOf(fields, name) == [] <==> Lookup(fields, name).None?
    ensures ValuesOf(fields, name) == [] <==> name !in Keys(fields)
  {
    if fields.Field? {
      NoValues(fields.rest, name);
    }
  }

  /** Where the four keys come at most once, their first values speak for all. */
  lemma {:induction false} TypedMeans(fields: Fields)
    requires AtMostOnce(EMPTY, fields)
    ensures AllFit(fields) <==> Typed(fields)
  {
    if fields.Field? {
      hide CanonicalId, ValuesOf, Lookup;
      OnceInRest(fields);
      TypedMeans(fields.rest);
      LookupStep(fields, "ID");
      LookupStep(fields, "Timestamp");
      LookupStep(fields, "Contents");
      LookupStep(fields, "Attachments");
    } else {
      assert Typed(NoFields);
    }
  }

  lemma OnceInRest(fields: Fields)
    requires fields.Field? && AtMostOnce(EMPTY, fields)
    ensures AtMostOnce(EMPTY, fields.rest)
    ensures fields.key in READ_KEYS ==> Lookup(fields.rest, fields.key).None?
  {
    forall name | name in READ_KEYS ensures |ValuesOf(fields.rest, name)| <= |ValuesOf(fields, name)| {}
    NoValues(fields.rest, fields.key);
    assert Stored(EMPTY, fields.key).None?;
  }

  lemma LookupStep(fields: Fields, name: string)
    requires fields.Field?
    ensures Lookup(fields, name) == if fields.key == name then Some(fields.value) else Lookup(fields.rest, name)
  {
  }

  /** What the two passes do not share: no author key, and a timestamp that is the
      identifier's own. */
  predicate AuthenticRecord(j: Json)
  {
    IsRecord(j) && NoAuthor(j.fields) && AuthenticTime(j.fields)
  }

  predicate AuthenticTime(fields: Fields)
    requires IsRecord(Obj(fields))
  {
    && ParseId(Lookup(fields, "ID").value.text).Ok?
    && TimestampMillis(Lookup(fields, "ID").value.text, Lookup(fields, "Timestamp").value.s).Ok?
  }

  predicate AllAuthentic(items: Items)
  {
    items.Item? ==> AuthenticRecord(items.head) && AllAuthentic(items.tail)
  }

  /** The optional fields after all keys of a record. */
  function Filled(fields: Fields): Partial
  {
    Partial(TextOfKey(None, fields, "ID"), TextOfKey(None, fields, "Timestamp"),
      TextOfKey(None, fields, "Contents"), TextOfKey(None, fields, "Attachments"))
  }

  /** The identifier and the time of well-typed fields, as they stand in the document. */
  lemma FilledMeans(fields: Fields)
    requires Typed(fields)
    ensures var p := Filled(fields);
      && (p.id.Some? <==> Lookup(fields, "ID").Some?)
      && (p.id.Some? ==> CanonicalId(Lookup(fields, "ID").value) && p.id.value == Lookup(fields, "ID").value.text)
      && (p.timestamp.Some? <==> TextAt(fields, "Timestamp"))
      && (p.timestamp.Some? ==> p.timestamp.value == Lookup(fields, "Timestamp").value.s)
      && (p.contents.Some? <==> TextAt(fields, "Contents"))
      && (p.contents.Some? ==> p.contents.value == Lookup(fields, "Contents").value.s)
      && (p.attachments.Some? <==> TextAt(fields, "Attachments"))
      && (p.attachments.Some? ==> p.attachments.value == Lookup(fields, "Attachments").value.s)
  {
    hide Lookup, Classify;
  }

  lemma FinishMeans(fields: Fields)
    requires Typed(fields)
    ensures Finish(Filled(fields)).Ok? <==> IsRecord(Obj(fields)) && AuthenticTime(fields)
    ensures Finish(Filled(fields)).Ok? ==>
      var id, time := Lookup(fields, "ID").value.text, Lookup(fields, "Timestamp").value.s;
      Finish(Filled(fields)).value == SentMessage(id, TimestampMillis(id, time).value,
        Lookup(fields, "Contents").value.s, Lookup(fields, "Attachments").value.s)
  {
    hide Typed, Filled, Lookup, Classify, ClassifyTimestamp, TimestampMillis;
    FilledMeans(fields);
    var p := Filled(fields);
    if p.id.Some? && p.timestamp.Some? && ParseId(p.id.value).Ok? {
      AcceptedTimeIsSent(p.id.value, p.timestamp.value);
    }
  }

  /** A record is read exactly when it is an authentic one in which each of the four keys comes once, whatever
      else it holds. */
  lemma ReadMessageMeans(j: Json)
    ensures ReadMessage(j).Ok? <==> AuthenticRecord(j) && AtMostOnce(EMPTY, j.fields)
    ensures ReadMessage(j).Ok? ==>
      var id, time := Lookup(j.fields, "ID").value.text, Lookup(j.fields, "Timestamp").value.s;
      ReadMessage(j).value == SentMessage(id, TimestampMillis(id, time).value,
        Lookup(j.fields, "Contents").value.s, Lookup(j.fields, "Attachments").value.s)
  {
    hide NoAuthor, AllFit, AtMostOnce, ReadFields, TimestampMillis, Classify, ClassifyTimestamp, ParseId, Lookup,
         Finish, TextOfKey;
    if j.Obj? {
      ReadFieldsMeans(EMPTY, j.fields);
      RecordIsTyped(j.fields);
      if AtMostOnce(EMPTY, j.fields) {
        TypedMeans(j.fields);
        if Typed(j.fields) {
          FinishMeans(j.fields);
        }
      }
    }
  }

  lemma RecordIsTyped(fields: Fields)
    ensures IsRecord(Obj(fields)) ==> Typed(fields)
  {
    hide Lookup, Classify, ClassifyTimestamp;
  }

  lemma AcceptedTimeIsSent(id: string, time: string)
    requires ParseId(id).Ok?
    ensures TimestampMillis(id, time).Ok? ==> ClassifyTimestamp(time) == SENT_MESSAGE_TIME
  {
    hide ClassifyTimestamp, Classify;
  }

  // ----- the reader against the summary -----

  /** No key outside the reader's repeats, and no value that it skips holds a repeated key. */
  predicate CleanOthers(fields: Fields)
  {
    fields.Field? ==>
      && CleanOthers(fields.rest)
      && (KeyOf(fields.key) == OtherKey ==> fields.key !in Keys(fields.rest) && NoDuplicateKeys(fields.value))
  }

  predicate AllClean(items: Items)
  {
    items.Item? ==> items.head.Obj? && CleanOthers(items.head.fields) && AllClean(items.tail)
  }

  /** This key comes at most once, and its value has no repeated key. */
  ghost predicate CleanAt(fields: Fields, name: string)
  {
    |ValuesOf(fields, name)| <= 1 && forall value :: value in ValuesOf(fields, name) ==> NoDuplicateKeys(value)
  }

  /** The first key, if it is this one, does not come again, and its value has no repeated key. */
  predicate CleanHead(fields: Fields, name: string)
    requires fields.Field?
  {
    name == fields.key ==> fields.key !in Keys(fields.rest) && NoDuplicateKeys(fields.value)
  }

  lemma {:induction false} CleanMeans(fields: Fields)
    ensures CleanOthers(fields) <==> forall name :: KeyOf(name) == OtherKey ==> CleanAt(fields, name)
  {
    if fields.Field? {
      hide KeyOf;
      CleanMeans(fields.rest);
      NoValues(fields.rest, fields.key);
      forall name
        ensures CleanAt(fields, name) <==> CleanAt(fields.rest, name) && CleanHead(fields, name)
      {
        CleanStep(fields, name);
      }
    }
  }

  lemma CleanStep(fields: Fields, name: string)
    requires fields.Field?
    ensures CleanAt(fields, name) <==> CleanAt(fields.rest, name) && CleanHead(fields, name)
  {
    NoValues(fields.rest, name);
    if name == fields.key {
      assert fields.value in ValuesOf(fields, name);
      if ValuesOf(fields.rest, name) == [] {
        assert ValuesOf(fields, name) == [fields.value];
      }
    } else {
      assert ValuesOf(fields, name) == ValuesOf(fields.rest, name);
    }
  }

  /** In a record that the reader accepts, keys repeat somewhere exactly when they repeat where it does not
      look. */
  lemma {:induction false} UniqueMeans(fields: Fields)
    requires NoAuthor(fields) && AllFit(fields) && AtMostOnce(EMPTY, fields)
    ensures NoDuplicatesInFields(fields) <==> CleanOthers(fields)
  {
    if fields.Field? {
      hide ValuesOf, AtMostOnce, Lookup, Classify;
      OnceInRest(fields);
      LookupNone(fields.rest, fields.key);
      assert fields.key in Keys(fields);
      assert KeyOf(fields.key) == OtherKey || fields.key in READ_KEYS;
      UniqueMeans(fields.rest);
    }
  }

  lemma {:induction false} UniqueIsOnce(fields: Fields, name: string)
    requires NoDuplicatesInFields(fields)
    ensures |ValuesOf(fields, name)| <= 1
  {
    if fields.Field? {
      UniqueIsOnce(fields.rest, name);
      NoValues(fields.rest, name);
    }
  }

  predicate AllOnce(items: Items)
  {
    items.Item? ==> items.head.Obj? && AtMostOnce(EMPTY, items.head.fields) && AllOnce(items.tail)
  }

  lemma RecordMeans(j: Json)
    ensures ReadMessage(j).Ok? ==> (NoDuplicateKeys(j) <==> CleanOthers(j.fields))
    ensures NoDuplicateKeys(j) && j.Obj? ==> AtMostOnce(EMPTY, j.fields)
  {
    hide ReadFields, Finish, ValuesOf, AllFit, NoAuthor, CleanOthers, NoDuplicatesInFields;
    if j.Obj? {
      ReadFieldsMeans(EMPTY, j.fields);
      if ReadMessage(j).Ok? {
        UniqueMeans(j.fields);
      }
      if NoDuplicateKeys(j) {
        forall name ensures |ValuesOf(j.fields, name)| <= 1 {
          UniqueIsOnce(j.fields, name);
        }
      }
    }
  }

  lemma {:induction false} AllReadableMeans(items: Items)
    ensures AllReadable(items) <==> AllAuthentic(items) && AllOnce(items)
    ensures AllReadable(items) ==> (NoDuplicatesInItems(items) <==> AllClean(items))
    ensures AllAuthentic(items) && NoDuplicatesInItems(items) ==> AllOnce(items)
    ensures AllAuthentic(items) ==> AllRecords(items)
  {
    hide ReadMessage, NoDuplicateKeys, NoAuthor, TimestampMillis, ParseId, AtMostOnce, CleanOthers, Lookup, Classify;
    if items.Item? {
      ReadMessageMeans(items.head);
      RecordMeans(items.head);
      AllReadableMeans(items.tail);
    }
  }

  /** The structural pass accepts a transcript, its budgets aside: no key is repeated, and the decision on the
      summary is good. */
  predicate SummaryAccepts(j: Json)
  {
    NoDuplicateKeys(j) && Decision(EntryOf(j)).Ok?
  }

  predicate ReaderAccepts(j: Json)
  {
    j.Arr? && AllReadable(j.items)
  }

  /** What the structural pass accepts leaves the reader within its own budgets, after no more tokens. */
  lemma ReaderStaysWithin(j: Json, limits: ProbeLimits, tokens: nat, sink: Sink)
    requires WithinBudgets(limits, tokens, j) && ReaderAccepts(j)
    ensures AllTaken(limits.budgets, tokens + 1, j.items, [], sink) <==> Takes(sink, [], Accepted(j.items))
  {
    hide Retained, VisitNodes, CostOf, AllTaken, Takes, EachFits, Height;
    CostOfItems(j);
    AllTakenMeans(limits.budgets, tokens + 1, j.items, [], sink);
  }

  /** The two passes compared, on every document. What the structural pass accepts, the reader accepts exactly
      when every record is authentic besides; and what the reader accepts, the structural pass accepts exactly
      when no key that the reader skips repeats or holds a repeated key. */
  lemma ReaderAgainstSummary(j: Json)
    ensures SummaryAccepts(j) ==> j.Arr? && (ReaderAccepts(j) <==> AllAuthentic(j.items))
    ensures ReaderAccepts(j) ==> (SummaryAccepts(j) <==> AllClean(j.items))
  {
    hide Decision, EntryOf, AllReadable, AllAuthentic, AllRecords, AllClean, AllOnce;
    if NoDuplicateKeys(j) {
      DecisionMeansTranscript(j);
    }
    if j.Arr? {
      AllReadableMeans(j.items);
    }
  }

  /** Repeats of a skipped key make the difference: a record stays accepted when such a key is put in front of
      it twice. */
  lemma RepeatedOtherKey(name: string, value: Json, fields: Fields)
    requires KeyOf(name) == OtherKey
    ensures var repeated := Obj(Field(name, value, Field(name, value, fields)));
      ReadMessage(repeated) == ReadMessage(Obj(fields)) && !NoDuplicateKeys(repeated)
  {
    var inner := Field(name, value, fields);
    assert name in Keys(inner);
    assert ReadField(EMPTY, name, value) == Ok(EMPTY);
    hide ReadField;
    assert ReadFields(EMPTY, inner) == ReadFields(EMPTY, fields);
    assert ReadFields(EMPTY, Field(name, value, inner)) == ReadFields(EMPTY, inner);
  }
}
