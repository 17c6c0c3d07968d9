/** Deletion plans: reviewed items, their order, and the batches that a run mutates. */
module DeletionPlan {
  import opened Options

  const MAX_PLAN_MESSAGES: nat := 100_000
  const MAX_BATCH: nat := 100

  datatype Reach = Everyone | SelfOnly | Nobody

  /** A chat and a message in it, as in the server's identifiers. */
  datatype Key = Key(chat: int, id: int)

  /** A message as far as plans look at it; also an item of a plan. */
  datatype Item = Item(key: Key, reach: Reach)

  datatype Summary = Summary(selected: nat, deleteForEveryone: nat, selfOnly: nat, cannotDelete: nat)

  datatype Plan = Plan(items: seq<Item>, summary: Summary)

  datatype Batch = Batch(chat: int, ids: seq<int>)

  datatype Error =
    | EmptySelection
    | NoEveryoneDeletable
    | SelectionTooLarge(count: nat, max: nat)
    | InvalidChat
    | InvalidMessage
    | InvalidBatchSize(size: int)

  // ----- collecting items -----

  /** Zero is no chat, and only positive identifiers are of sent messages. */
  function InvalidKey(key: Key): Option<Error>
  {
    if key.chat == 0 then Some(InvalidChat) else if key.id <= 0 then Some(InvalidMessage) else None
  }

  /** Chats have any number but zero, messages that were sent a positive one. */
  predicate OfSentMessage(key: Key)
  {
    key.chat != 0 && key.id >= 1
  }

  lemma InvalidKeyMeans(key: Key)
    ensures InvalidKey(key).None? <==> OfSentMessage(key)
    ensures InvalidKey(key) == Some(InvalidChat) <==> key.chat == 0
    ensures InvalidKey(key) == Some(InvalidMessage) <==> key.chat != 0 && key.id < 1
  {
  }

  ghost function Keys(items: seq<Item>): set<Key>
  {
    set i | 0 <= i < |items| :: items[i].key
  }

  lemma KeysSnoc(items: seq<Item>, item: Item)
    ensures Keys(items + [item]) == Keys(items) + {item.key}
  {
    var more := items + [item];
    assert more[|items|] == item;
    forall i | 0 <= i < |items| ensures items[i].key in Keys(more) {
      assert more[i] == items[i];
    }
  }

  /** The first message of every key. */
  ghost function FirstOfEach(messages: seq<Item>): seq<Item>
  {
    if |messages| == 0 then []
    else
      var before, last := FirstOfEach(messages[..|messages| - 1]), messages[|messages| - 1];
      if last.key in Keys(before) then before else before + [last]
  }

  lemma FirstOfEachSnoc(messages: seq<Item>, index: nat)
    requires index < |messages|
    ensures var before := FirstOfEach(messages[..index]);
      FirstOfEach(messages[..index + 1]) ==
      if messages[index].key in Keys(before) then before else before + [messages[index]]
  {
    assert messages[..index + 1][..index] == messages[..index];
  }

  function Count(items: seq<Item>, reach: Reach): (n: nat)
    ensures n <= |items|
  {
    if |items| == 0 then 0
    else Count(items[..|items| - 1], reach) + (if items[|items| - 1].reach == reach then 1 else 0)
  }

  lemma CountSnoc(items: seq<Item>, item: Item)
    ensures forall reach :: Count(items + [item], reach) == Count(items, reach) + (if item.reach == reach then 1 else 0)
  {
    assert (items + [item])[..|items|] == items;
  }

  /** A count is the number of places where the reach stands. */
  lemma {:induction false} CountMeans(items: seq<Item>, reach: Reach)
    ensures Count(items, reach) == |Places(items, reach)|
  {
    if |items| == 0 {
      assert Places(items, reach) == {};
    } else {
      CountMeans(items[..|items| - 1], reach);
      PlacesSnoc(items, reach);
    }
  }

  function Places(items: seq<Item>, reach: Reach): set<int>
  {
    set i: int | 0 <= i < |items| && items[i].reach == reach
  }

  lemma PlacesSnoc(items: seq<Item>, reach: Reach)
    requires |items| > 0
    ensures var n := |items| - 1;
      |Places(items, reach)| == |Places(items[..n], reach)| + if items[n].reach == reach then 1 else 0
  {
    var n := |items| - 1;
    var before := Places(items[..n], reach);
    forall i ensures i in Places(items, reach) <==> i in before || (i == n && items[n].reach == reach) {
    }
    if items[n].reach == reach {
      assert Places(items, reach) == before + {n};
    } else {
      assert Places(items, reach) == before;
    }
  }

  lemma CountFinds(items: seq<Item>, reach: Reach)
    ensures Count(items, reach) > 0 <==> exists i :: 0 <= i < |items| && items[i].reach == reach
  {
    CountMeans(items, reach);
    if i :| 0 <= i < |items| && items[i].reach == reach {
      assert i in Places(items, reach);
    }
    if Count(items, reach) > 0 {
      assert Places(items, reach) != {};
    }
  }

  function SummaryOf(items: seq<Item>): Summary
  {
    Summary(|items|, Count(items, Everyone), Count(items, SelfOnly), Count(items, Nobody))
  }

  /** The first message with a bad identifier decides the error. */
  ghost predicate FirstInvalid(messages: seq<Item>, i: nat, error: Error)
  {
    && i < |messages|
    && InvalidKey(messages[i].key) == Some(error)
    && forall j :: 0 <= j < i ==> InvalidKey(messages[j].key).None?
  }

  predicate FirstNotSent(messages: seq<Item>, i: nat)
  {
    && i < |messages| && !OfSentMessage(messages[i].key)
    && forall j | 0 <= j < i :: OfSentMessage(messages[j].key)
  }

  lemma FirstInvalidMeans(messages: seq<Item>)
    ensures forall i: nat, error :: FirstInvalid(messages, i, error) ==>
      && FirstNotSent(messages, i)
      && error == if messages[i].key.chat == 0 then InvalidChat else InvalidMessage
    ensures (forall i :: 0 <= i < |messages| ==> InvalidKey(messages[i].key).None?) <==>
      forall i | 0 <= i < |messages| :: OfSentMessage(messages[i].key)
    ensures forall i: nat :: FirstNotSent(messages, i) ==>
      !(forall k | 0 <= k < |messages| :: OfSentMessage(messages[k].key))
  {
    forall i | 0 <= i < |messages|
      ensures InvalidKey(messages[i].key).None? <==> OfSentMessage(messages[i].key)
    {
      InvalidKeyMeans(messages[i].key);
    }
  }

  lemma Nothing(messages: seq<Item>)
    ensures Keys([]) == {} && FirstOfEach(messages[..0]) == [] && SummaryOf([]) == Summary(0, 0, 0, 0)
  {
  }

  method CollectPlanItems(messages: seq<Item>) returns (r: Result<Plan, Error>)
    ensures |messages| > MAX_PLAN_MESSAGES ==> r == Err(SelectionTooLarge(|messages|, MAX_PLAN_MESSAGES))
    ensures |messages| <= MAX_PLAN_MESSAGES ==>
      match r
      case Err(error) => exists i :: FirstInvalid(messages, i, error)
      case Ok(plan) =>
        && (forall i :: 0 <= i < |messages| ==> InvalidKey(messages[i].key).None?)
        && plan == Plan(FirstOfEach(messages), SummaryOf(FirstOfEach(messages)))
  {
    hide Keys, FirstOfEach, Count;
    Nothing(messages);
    if |messages| > MAX_PLAN_MESSAGES {
      return Err(SelectionTooLarge(|messages|, MAX_PLAN_MESSAGES));
    }
    var seen: set<Key> := {};
    var items: seq<Item> := [];
    var everyone: nat, selfOnly: nat, nobody: nat := 0, 0, 0;
    for index := 0 to |messages|
      invariant forall i :: 0 <= i < index ==> InvalidKey(messages[i].key).None?
      invariant items == FirstOfEach(messages[..index]) && seen == Keys(items)
      invariant everyone == Count(items, Everyone) && selfOnly == Count(items, SelfOnly)
        && nobody == Count(items, Nobody)
    {
      FirstOfEachSnoc(messages, index);
      var message := messages[index];
      var invalid := InvalidKey(message.key);
      if invalid.Some? {
        assert FirstInvalid(messages, index, invalid.value);
        return Err(invalid.value);
      }
      if message.key in seen {
        continue;
      }
      KeysSnoc(items, message);
      CountSnoc(items, message);
      seen := seen + {message.key};
      match message.reach {
        case Everyone => everyone := everyone + 1;
        case SelfOnly => selfOnly := selfOnly + 1;
        case Nobody => nobody := nobody + 1;
      }
      items := items + [message];
    }
    assert messages[..|messages|] == messages;
    return Ok(Plan(items, Summary(|items|, everyone, selfOnly, nobody)));
  }

  /** No two items have the same key. */
  ghost predicate Distinct(items: seq<Item>)
  {
    forall i, j :: 0 <= i < j < |items| ==> items[i].key != items[j].key
  }

  /** The item is the first message with its key. */
  ghost predicate IsFirst(messages: seq<Item>, i: nat, item: Item)
  {
    i < |messages| && messages[i] == item && item.key !in Keys(messages[..i])
  }

  lemma {:induction false} FirstOfEachKeys(messages: seq<Item>)
    ensures Distinct(FirstOfEach(messages))
    ensures Keys(FirstOfEach(messages)) == Keys(messages)
  {
    if |messages| > 0 {
      var shorter, last := messages[..|messages| - 1], messages[|messages| - 1];
      FirstOfEachKeys(shorter);
      assert messages == shorter + [last];
      KeysSnoc(shorter, last);
      KeysSnoc(FirstOfEach(shorter), last);
    }
  }

  /** The items are exactly the messages that are the first with their key. */
  lemma {:induction false} FirstOfEachMeans(messages: seq<Item>, item: Item)
    ensures item in FirstOfEach(messages) <==> exists i: nat :: IsFirst(messages, i, item)
  {
    if |messages| > 0 {
      hide Keys;
      var n := |messages| - 1;
      var shorter := messages[..n];
      FirstOfEachMeans(shorter, item);
      FirstOfEachKeys(shorter);
      forall i: nat | i < n ensures IsFirst(messages, i, item) <==> IsFirst(shorter, i, item) {
        assert messages[..i] == shorter[..i];
      }
      assert IsFirst(messages, n, item) <==> messages[n] == item && item.key !in Keys(shorter);
    }
  }

  /** Every item has one reach, so the counts of a summary add up. */
  lemma {:induction false} SummaryAddsUp(items: seq<Item>)
    ensures var s := SummaryOf(items);
      s.selected == |items| == s.deleteForEveryone + s.selfOnly + s.cannotDelete
  {
    if |items| > 0 {
      SummaryAddsUp(items[..|items| - 1]);
    }
  }

  // ----- the order of a plan -----

  predicate Before(a: Key, b: Key)
  {
    a.chat < b.chat || (a.chat == b.chat && a.id < b.id)
  }

  ghost predicate Ascending(items: seq<Item>)
  {
    forall i, j :: 0 <= i < j < |items| ==> Before(items[i].key, items[j].key)
  }

  ghost predicate AllBefore(keys: set<Key>, key: Key)
  {
    forall k :: k in keys ==> Before(k, key)
  }

  lemma AscendingSnoc(items: seq<Item>, item: Item)
    ensures Ascending(items + [item]) <==> Ascending(items) && AllBefore(Keys(items), item.key)
  {
    var more := items + [item];
    if Ascending(more) {
      forall k | k in Keys(items) ensures Before(k, item.key) {
        var i :| 0 <= i < |items| && items[i].key == k;
        assert more[i] == items[i] && more[|items|] == item;
      }
      forall i, j | 0 <= i < j < |items| ensures Before(items[i].key, items[j].key) {
        assert more[i] == items[i] && more[j] == items[j];
      }
    }
    if Ascending(items) && AllBefore(Keys(items), item.key) {
      forall i, j | 0 <= i < j < |more| ensures Before(more[i].key, more[j].key) {
        assert more[i] == items[i] && items[i].key in Keys(items);
      }
    }
  }

  /** Inserts after every item whose key is not greater. */
  function Insert(items: seq<Item>, item: Item): seq<Item>
  {
    if |items| == 0 || !Before(item.key, items[|items| - 1].key) then items + [item]
    else Insert(items[..|items| - 1], item) + [items[|items| - 1]]
  }

  /** The stable sort by key. */
  function Sort(items: seq<Item>): seq<Item>
  {
    if |items| == 0 then [] else Insert(Sort(items[..|items| - 1]), items[|items| - 1])
  }

  ghost function Elements(items: seq<Item>): set<Item>
  {
    set i | 0 <= i < |items| :: items[i]
  }

  lemma {:induction false} InsertContents(items: seq<Item>, item: Item)
    ensures Elements(Insert(items, item)) == Elements(items) + {item}
    ensures Keys(Insert(items, item)) == Keys(items) + {item.key}
    ensures forall reach ::
      Count(Insert(items, item), reach) == Count(items, reach) + (if item.reach == reach then 1 else 0)
  {
    hide Elements, Keys, Count;
    var n := |items| - 1;
    if |items| == 0 || !Before(item.key, items[n].key) {
      ElementsSnoc(items, item);
      CountSnoc(items, item);
    } else {
      var rest := items[..n];
      assert items == rest + [items[n]];
      ElementsSnoc(rest, items[n]);
      CountSnoc(rest, items[n]);
      InsertContents(rest, item);
      ElementsSnoc(Insert(rest, item), items[n]);
      CountSnoc(Insert(rest, item), items[n]);
    }
  }

  lemma {:induction false} InsertAscends(items: seq<Item>, item: Item)
    requires Ascending(items) && item.key !in Keys(items)
    ensures Ascending(Insert(items, item))
  {
    hide Elements, Keys, Count, Ascending;
    var n := |items| - 1;
    if |items| == 0 {
      AscendingSnoc(items, item);
      KeysOfNothing();
    } else {
      var rest := items[..n];
      assert items == rest + [items[n]];
      ElementsSnoc(rest, items[n]);
      AscendingSnoc(rest, items[n]);
      InsertContents(rest, item);
      if Before(item.key, items[n].key) {
        InsertAscends(rest, item);
        AscendingSnoc(Insert(rest, item), items[n]);
      } else {
        assert Before(items[n].key, item.key);
        AscendingSnoc(items, item);
      }
    }
  }

  lemma KeysOfNothing()
    ensures Keys([]) == {} && Elements([]) == {} && Ascending([])
  {
  }

  lemma ElementsSnoc(items: seq<Item>, item: Item)
    ensures Elements(items + [item]) == Elements(items) + {item}
    ensures Keys(items + [item]) == Keys(items) + {item.key}
  {
    var more := items + [item];
    KeysSnoc(items, item);
    assert more[|items|] == item;
    forall i | 0 <= i < |items| ensures items[i] in Elements(more) {
      assert more[i] == items[i];
    }
  }

  /** Sorting distinct items gives the same items in strictly ascending order. */
  lemma {:induction false} SortMeans(items: seq<Item>)
    requires Distinct(items)
    ensures Ascending(Sort(items))
    ensures Elements(Sort(items)) == Elements(items) && Keys(Sort(items)) == Keys(items)
    ensures SummaryOf(Sort(items)) == SummaryOf(items)
  {
    hide Ascending, Keys, Elements;
    if |items| > 0 {
      var shorter, last := items[..|items| - 1], items[|items| - 1];
      SortMeans(shorter);
      NotYet(items);
      InsertContents(Sort(shorter), last);
      InsertAscends(Sort(shorter), last);
      assert items == shorter + [last];
      ElementsSnoc(shorter, last);
    } else {
      KeysOfNothing();
    }
    SummaryAddsUp(items);
    SummaryAddsUp(Sort(items));
  }

  lemma NotYet(items: seq<Item>)
    requires |items| > 0 && Distinct(items)
    ensures items[|items| - 1].key !in Keys(items[..|items| - 1])
  {
  }

  /** There is only one strictly ascending sequence of a set of items. */
  lemma {:induction false} AscendingIsUnique(a: seq<Item>, b: seq<Item>)
    requires Ascending(a) && Ascending(b) && Elements(a) == Elements(b)
    ensures a == b
  {
    hide Elements, Keys, Ascending;
    KeysOfNothing();
    if |a| > 0 && |b| > 0 {
      var x, y := a[|a| - 1], b[|b| - 1];
      var p, q := a[..|a| - 1], b[..|b| - 1];
      assert a == p + [x] && b == q + [y];
      ElementsSnoc(p, x);
      ElementsSnoc(q, y);
      AscendingSnoc(p, x);
      AscendingSnoc(q, y);
      NoneAbove(p, x, y);
      NoneAbove(q, y, x);
      assert x == y;
      AscendingIsUnique(p, q);
    } else if |a| > 0 {
      HasElement(a);
    } else if |b| > 0 {
      HasElement(b);
    }
  }

  lemma HasElement(items: seq<Item>)
    requires |items| > 0
    ensures items[0] in Elements(items)
  {
  }

  /** The last item of an ascending sequence is not among the others, and is after every one of them. */
  lemma NoneAbove(items: seq<Item>, last: Item, item: Item)
    requires AllBefore(Keys(items), last.key)
    ensures last !in Elements(items)
    ensures item in Elements(items) ==> Before(item.key, last.key)
  {
    assert item in Elements(items) ==> item.key in Keys(items);
    assert last in Elements(items) ==> last.key in Keys(items);
  }

  // ----- constructing plans -----

  /** A plan as `finish` leaves it. */
  ghost predicate Prepared(plan: Plan)
  {
    && Ascending(plan.items)
    && plan.summary == SummaryOf(plan.items)
    && forall key :: key in Keys(plan.items) ==> InvalidKey(key).None?
  }

  method Finish(plan: Plan) returns (r: Plan)
    requires Distinct(plan.items) && plan.summary == SummaryOf(plan.items)
    requires forall key :: key in Keys(plan.items) ==> InvalidKey(key).None?
    ensures Prepared(r) && r.summary == plan.summary && Elements(r.items) == Elements(plan.items)
    ensures r.items == Sort(plan.items)
  {
    hide Distinct, Ascending, Elements, SummaryOf, Sort, Keys;
    SortMeans(plan.items);
    r := plan.(items := Sort(plan.items));
  }

  /** Plans a selection: the error of the first check that fails, or the sorted first messages of every key. */
  method SelectedMessages(messages: seq<Item>) returns (r: Result<Plan, Error>)
    ensures messages == [] <==> r == Err(EmptySelection)
    ensures |messages| > 100_000 ==> r == Err(SelectionTooLarge(|messages|, 100_000))
    ensures r == Err(NoEveryoneDeletable) <==>
      && 1 <= |messages| <= 100_000 && (forall i | 0 <= i < |messages| :: OfSentMessage(messages[i].key))
      && forall i | 0 <= i < |FirstOfEach(messages)| :: FirstOfEach(messages)[i].reach != Everyone
    ensures r.Ok? ==>
      && Prepared(r.value) && r.value.summary.deleteForEveryone > 0
      && Elements(r.value.items) == Elements(FirstOfEach(messages))
      && r.value.items == Sort(FirstOfEach(messages))
    ensures r.Ok? <==>
      && 1 <= |messages| <= 100_000 && (forall i | 0 <= i < |messages| :: OfSentMessage(messages[i].key))
      && exists i :: 0 <= i < |FirstOfEach(messages)| && FirstOfEach(messages)[i].reach == Everyone
    ensures r.Err? && 1 <= |messages| <= 100_000 && r.error != NoEveryoneDeletable ==>
      exists i: nat :: FirstNotSent(messages, i) &&
        r.error == if messages[i].key.chat == 0 then InvalidChat else InvalidMessage
  {
    hide Prepared, Elements, Sort, FirstOfEach, Count, Distinct, InvalidKey, FirstInvalid, FirstNotSent;
    FirstInvalidMeans(messages);
    CountFinds(FirstOfEach(messages), Everyone);
    if |messages| == 0 {
      return Err(EmptySelection);
    }
    var collected := CollectPlanItems(messages);
    if collected.Err? {
      return Err(collected.error);
    }
    if collected.value.summary.deleteForEveryone == 0 {
      return Err(NoEveryoneDeletable);
    }
    FirstOfEachKeys(messages);
    var plan := Finish(collected.value);
    return Ok(plan);
  }

  /** Messages with the same key agree on their reach. */
  ghost predicate Consistent(messages: seq<Item>)
  {
    forall x, y :: x in Elements(messages) && y in Elements(messages) && x.key == y.key ==> x == y
  }

  lemma {:induction false} ConsistentContents(messages: seq<Item>)
    requires Consistent(messages)
    ensures Elements(FirstOfEach(messages)) == Elements(messages)
  {
    hide Keys;
    if |messages| > 0 {
      var shorter, last := messages[..|messages| - 1], messages[|messages| - 1];
      assert messages == shorter + [last];
      ElementsSnoc(shorter, last);
      ConsistentContents(shorter);
      FirstOfEachKeys(shorter);
      ElementsSnoc(FirstOfEach(shorter), last);
      KeyIsOfElement(shorter, last.key);
    }
  }

  lemma KeyIsOfElement(items: seq<Item>, key: Key)
    ensures key in Keys(items) <==> exists x :: x in Elements(items) && x.key == key
  {
    if x :| x in Elements(items) && x.key == key {
      assert key in Keys(items);
    }
    if key in Keys(items) {
      var i :| 0 <= i < |items| && items[i].key == key;
      assert items[i] in Elements(items);
    }
  }

  /** The selections with the same messages, in any order and repeated or not, all give the same plan. */
  ghost predicate OrderFree(messages: seq<Item>)
  {
    forall other :: Elements(other) == Elements(messages) ==> Sort(FirstOfEach(other)) == Sort(FirstOfEach(messages))
  }

  /** Order and repetition do not matter exactly when messages with the same key agree on their reach; otherwise
      the one that comes first wins. */
  lemma SelectionOrderDoesNotMatter(messages: seq<Item>)
    ensures OrderFree(messages) <==> Consistent(messages)
  {
    if Consistent(messages) {
      forall other | Elements(other) == Elements(messages)
        ensures Sort(FirstOfEach(other)) == Sort(FirstOfEach(messages))
      {
        SamePlan(messages, other);
      }
    } else {
      hide FirstOfEach, Sort, Elements;
      var x, y :| x in Elements(messages) && y in Elements(messages) && x.key == y.key && x != y;
      DifferentPlans(messages, x, y);
    }
  }

  /** Messages that disagree on their reach: with either of them in front, the plan is another one. */
  lemma DifferentPlans(messages: seq<Item>, x: Item, y: Item)
    requires x in Elements(messages) && y in Elements(messages) && x.key == y.key && x != y
    ensures Elements([x] + messages) == Elements(messages) && Elements([y] + messages) == Elements(messages)
    ensures Sort(FirstOfEach([x] + messages)) != Sort(FirstOfEach([y] + messages))
  {
    hide FirstOfEach, Sort, Elements, Distinct, Ascending;
    var first, second := FirstOfEach([x] + messages), FirstOfEach([y] + messages);
    FirstWins(messages, x);
    FirstWins(messages, y);
    FirstOfEachKeys([x] + messages);
    FirstOfEachKeys([y] + messages);
    SortMeans(first);
    SortMeans(second);
    OneOfEachKey(first, x, y);
  }

  lemma SamePlan(a: seq<Item>, b: seq<Item>)
    requires Consistent(a) && Elements(a) == Elements(b)
    ensures Sort(FirstOfEach(a)) == Sort(FirstOfEach(b))
  {
    ConsistentContents(a);
    ConsistentContents(b);
    FirstOfEachKeys(a);
    FirstOfEachKeys(b);
    SortMeans(FirstOfEach(a));
    SortMeans(FirstOfEach(b));
    AscendingIsUnique(Sort(FirstOfEach(a)), Sort(FirstOfEach(b)));
  }

  lemma FirstWins(messages: seq<Item>, item: Item)
    requires item in Elements(messages)
    ensures Elements([item] + messages) == Elements(messages)
    ensures item in Elements(FirstOfEach([item] + messages))
  {
    var more := [item] + messages;
    assert forall i | 0 <= i < |messages| :: more[i + 1] == messages[i];
    assert IsFirst(more, 0, item);
    FirstOfEachMeans(more, item);
  }

  lemma OneOfEachKey(items: seq<Item>, x: Item, y: Item)
    requires Distinct(items) && x in Elements(items) && x.key == y.key && x != y
    ensures y !in Elements(items)
  {
  }
}
