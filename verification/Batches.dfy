/** The batches of a plan: per chat in ascending order, in chunks of bounded size. */
module Batches {
  import opened Options
  import opened DeletionPlan
  import opened OrderedKeys

  predicate Wanted(item: Item)
  {
    item.reach == Everyone
  }

  /** The messages of one chat that are deleted for everyone, in the order of the items. */
  function IdsOf(items: seq<Item>, chat: int): seq<int>
  {
    if |items| == 0 then []
    else
      var before, last := IdsOf(items[..|items| - 1], chat), items[|items| - 1];
      if Wanted(last) && last.key.chat == chat then before + [last.key.id] else before
  }

  function Chats(items: seq<Item>): set<int>
  {
    if |items| == 0 then {}
    else
      var before, last := Chats(items[..|items| - 1]), items[|items| - 1];
      if Wanted(last) then before + {last.key.chat} else before
  }

  /** Consecutive chunks of at most k. */
  function Chunks(chat: int, ids: seq<int>, k: nat): seq<Batch>
    requires k > 0
  {
    if |ids| == 0 then []
    else if |ids| <= k then [Batch(chat, ids)]
    else [Batch(chat, ids[..k])] + Chunks(chat, ids[k..], k)
  }

  /** The chunks of these chats, chat by chat. */
  ghost function BatchesFor(items: seq<Item>, chats: set<int>, k: nat): seq<Batch>
    requires k > 0
    decreases |chats|
  {
    if chats == {} then []
    else
      var chat := Least(chats);
      Chunks(chat, IdsOf(items, chat), k) + BatchesFor(items, chats - {chat}, k)
  }

  // ----- the loops -----

  /** The wanted messages of every chat. */
  method GroupByChat(items: seq<Item>) returns (byChat: map<int, seq<int>>)
    ensures byChat.Keys == Chats(items)
    ensures forall chat :: chat in byChat ==> byChat[chat] == IdsOf(items, chat)
  {
    byChat := map[];
    for index := 0 to |items|
      invariant byChat.Keys == Chats(items[..index])
      invariant forall chat :: chat in byChat ==> byChat[chat] == IdsOf(items[..index], chat)
    {
      ghost var before := byChat;
      assert items[..index + 1][..index] == items[..index];
      var item := items[index];
      if !Wanted(item) {
        continue;
      }
      NoIds(items[..index], item.key.chat);
      var ids := if item.key.chat in byChat then byChat[item.key.chat] else [];
      byChat := byChat[item.key.chat := ids + [item.key.id]];
    }
    assert items[..|items|] == items;
  }

  lemma {:induction false} NoIds(items: seq<Item>, chat: int)
    ensures chat in Chats(items) <==> IdsOf(items, chat) != []
  {
    if |items| > 0 {
      NoIds(items[..|items| - 1], chat);
    }
  }

  /** The chunks of one chat, appended. */
  method AppendChunks(before: seq<Batch>, chat: int, ids: seq<int>, k: nat) returns (batches: seq<Batch>)
    requires k > 0
    ensures batches == before + Chunks(chat, ids, k)
  {
    batches := before;
    var offset := 0;
    while offset < |ids|
      invariant 0 <= offset <= |ids|
      invariant batches + Chunks(chat, ids[offset..], k) == before + Chunks(chat, ids, k)
    {
      var end := if offset + k < |ids| then offset + k else |ids|;
      NextChunk(chat, ids, offset, k);
      batches := batches + [Batch(chat, ids[offset..end])];
      offset := end;
    }
  }

  method EveryoneBatches(plan: Plan, k: int) returns (r: Result<seq<Batch>, Error>)
    ensures r.Ok? <==> 1 <= k <= 100
    ensures r.Err? ==> r.error == InvalidBatchSize(k)
    ensures r.Ok? ==> r.value == BatchesFor(plan.items, Chats(plan.items), k)
  {
    hide IdsOf, Chats, Chunks;
    if k <= 0 || k > MAX_BATCH {
      return Err(InvalidBatchSize(k));
    }
    var byChat := GroupByChat(plan.items);
    var remaining := byChat.Keys;
    var batches: seq<Batch> := [];
    while remaining != {}
      invariant remaining <= byChat.Keys
      invariant batches + BatchesFor(plan.items, remaining, k) == BatchesFor(plan.items, byChat.Keys, k)
      decreases |remaining|
    {
      HasLeast(remaining);
      var chat :| chat in remaining && forall c :: c in remaining ==> chat <= c;
      assert chat == Least(remaining);
      batches := AppendChunks(batches, chat, byChat[chat], k);
      remaining := remaining - {chat};
    }
    return Ok(batches);
  }

  lemma NextChunk(chat: int, ids: seq<int>, offset: nat, k: nat)
    requires offset < |ids| && k > 0
    ensures var end := if offset + k < |ids| then offset + k else |ids|;
      Chunks(chat, ids[offset..], k) == [Batch(chat, ids[offset..end])] + Chunks(chat, ids[end..], k)
  {
    var rest := ids[offset..];
    if offset + k < |ids| {
      assert rest[..k] == ids[offset..offset + k];
      assert rest[k..] == ids[offset + k..];
    } else {
      assert rest == ids[offset..|ids|];
    }
  }

  // ----- what the batches contain -----

  function KeysOf(chat: int, ids: seq<int>): seq<Key>
  {
    seq(|ids|, i requires 0 <= i < |ids| => Key(chat, ids[i]))
  }

  function Targets(batch: Batch): seq<Key>
  {
    KeysOf(batch.chat, batch.ids)
  }

  function AllTargets(batches: seq<Batch>): seq<Key>
  {
    if |batches| == 0 then [] else Targets(batches[0]) + AllTargets(batches[1..])
  }

  /** The wanted items of some chats, in the order of the items. */
  ghost function WantedIn(items: seq<Item>, chats: set<int>): seq<Key>
  {
    if |items| == 0 then []
    else
      var before, last := WantedIn(items[..|items| - 1], chats), items[|items| - 1];
      if Wanted(last) && last.key.chat in chats then before + [last.key] else before
  }

  lemma {:induction false} AllTargetsAppend(a: seq<Batch>, b: seq<Batch>)
    ensures AllTargets(a + b) == AllTargets(a) + AllTargets(b)
  {
    hide Targets;
    if |a| == 0 {
      assert a + b == b;
    } else {
      AllTargetsAppend(a[1..], b);
      assert (a + b)[1..] == a[1..] + b;
    }
  }

  lemma {:induction false} ChunksConcatenate(chat: int, ids: seq<int>, k: nat)
    requires k > 0
    ensures AllTargets(Chunks(chat, ids, k)) == KeysOf(chat, ids)
  {
    if |ids| > k {
      var first, rest := Batch(chat, ids[..k]), Chunks(chat, ids[k..], k);
      ChunksConcatenate(chat, ids[k..], k);
      assert ([first] + rest)[1..] == rest;
    } else if |ids| > 0 {
      assert Chunks(chat, ids, k) == [Batch(chat, ids)];
      assert AllTargets([]) == [];
    }
  }

  ghost predicate ChatsAscend(items: seq<Item>)
  {
    forall i, j :: 0 <= i < j < |items| ==> items[i].key.chat <= items[j].key.chat
  }

  lemma {:induction false} NoneWanted(items: seq<Item>, chats: set<int>)
    requires forall i :: 0 <= i < |items| ==> items[i].key.chat !in chats
    ensures WantedIn(items, chats) == []
  {
    if |items| > 0 {
      NoneWanted(items[..|items| - 1], chats);
    }
  }

  /** In items ordered by chat the least chat comes first. */
  lemma {:induction false} LeastComesFirst(items: seq<Item>, chats: set<int>, chat: int)
    requires ChatsAscend(items) && IsLeast(chats, chat)
    ensures WantedIn(items, chats) == KeysOf(chat, IdsOf(items, chat)) + WantedIn(items, chats - {chat})
  {
    if |items| > 0 {
      var shorter, last := items[..|items| - 1], items[|items| - 1];
      LeastComesFirst(shorter, chats, chat);
      if last.key.chat == chat {
        NoneWanted(shorter, chats - {chat});
      }
    }
  }

  /** Batches taken in order give the wanted items in their order. */
  lemma {:induction false} BatchesInOrder(items: seq<Item>, chats: set<int>, k: nat)
    requires ChatsAscend(items) && k > 0
    ensures AllTargets(BatchesFor(items, chats, k)) == WantedIn(items, chats)
    decreases |chats|
  {
    hide IdsOf;
    if chats == {} {
      NoneWanted(items, chats);
    } else {
      var chat := Least(chats);
      BatchesInOrder(items, chats - {chat}, k);
      LeastComesFirst(items, chats, chat);
      ChunksConcatenate(chat, IdsOf(items, chat), k);
      AllTargetsAppend(Chunks(chat, IdsOf(items, chat), k), BatchesFor(items, chats - {chat}, k));
    }
  }

  /** Every batch has between one and k messages. */
  ghost predicate Fits(batches: seq<Batch>, k: nat)
  {
    forall i :: 0 <= i < |batches| ==> 0 < |batches[i].ids| <= k
  }

  lemma {:induction false} ChunksFit(chat: int, ids: seq<int>, k: nat)
    requires k > 0
    ensures Fits(Chunks(chat, ids, k), k)
    ensures |Chunks(chat, ids, k)| * k < |ids| + k
  {
    if |ids| > k {
      ChunksFit(chat, ids[k..], k);
    }
  }

  lemma {:induction false} BatchesFit(items: seq<Item>, chats: set<int>, k: nat)
    requires k > 0
    ensures Fits(BatchesFor(items, chats, k), k)
    decreases |chats|
  {
    if chats != {} {
      hide Chunks, IdsOf;
      var chat := Least(chats);
      ChunksFit(chat, IdsOf(items, chat), k);
      BatchesFit(items, chats - {chat}, k);
    }
  }

  // ----- no division has fewer batches -----

  /** The messages of one chat in some batches. */
  function Carried(batches: seq<Batch>, chat: int): nat
  {
    if |batches| == 0 then 0
    else (if batches[0].chat == chat then |batches[0].ids| else 0) + Carried(batches[1..], chat)
  }

  function Without(batches: seq<Batch>, chat: int): (r: seq<Batch>)
  {
    if |batches| == 0 then []
    else if batches[0].chat == chat then Without(batches[1..], chat)
    else [batches[0]] + Without(batches[1..], chat)
  }

  /** The batches of a chat are enough for its messages. */
  lemma {:induction false} CarriedByItsBatches(batches: seq<Batch>, chat: int, k: nat)
    requires Fits(batches, k)
    ensures |Without(batches, chat)| <= |batches|
    ensures Carried(batches, chat) <= (|batches| - |Without(batches, chat)|) * k
  {
    if |batches| > 0 {
      var rest := batches[1..];
      CarriedByItsBatches(rest, chat, k);
      var n := |rest| - |Without(rest, chat)|;
      assert (n + 1) * k == n * k + k;
    }
  }

  /** Leaving them out does not touch the others. */
  lemma {:induction false} WithoutOne(batches: seq<Batch>, chat: int, k: nat)
    requires Fits(batches, k)
    ensures Fits(Without(batches, chat), k)
    ensures forall c :: c != chat ==> Carried(Without(batches, chat), c) == Carried(batches, c)
  {
    if |batches| > 0 {
      WithoutOne(batches[1..], chat, k);
      var rest := Without(batches[1..], chat);
      assert ([batches[0]] + rest)[1..] == rest;
    }
  }

  lemma LessByFactor(a: nat, b: nat, k: nat)
    ensures a * k < b * k ==> a < b
  {
    if b <= a {
      assert b * k <= a * k;
    }
  }

  /** Any batches of one chat each and at most k messages that carry all wanted messages are as many. */
  lemma {:induction false} NoFewerBatches(items: seq<Item>, chats: set<int>, k: nat, batches: seq<Batch>)
    requires k > 0 && Fits(batches, k)
    requires forall chat :: chat in chats ==> Carried(batches, chat) >= |IdsOf(items, chat)|
    ensures |BatchesFor(items, chats, k)| <= |batches|
    decreases |chats|
  {
    hide IdsOf, Chunks, Carried, Without, Fits;
    if chats != {} {
      var chat := Least(chats);
      WithoutOne(batches, chat, k);
      CarriedByItsBatches(batches, chat, k);
      NoFewerBatches(items, chats - {chat}, k, Without(batches, chat));
      ChunksFit(chat, IdsOf(items, chat), k);
      var own := |batches| - |Without(batches, chat)|;
      assert (own + 1) * k == own * k + k;
      LessByFactor(|Chunks(chat, IdsOf(items, chat), k)|, own + 1, k);
    }
  }
}
