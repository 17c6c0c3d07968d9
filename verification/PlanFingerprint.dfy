/** The fingerprint of a plan over selected messages: a digest of the operation and the items in their order. */
module PlanFingerprint {
  import opened DeletionPlan
  import opened Radix

  const WORD: nat := 0x1_0000_0000_0000_0000

  /** What the two fields of a key can hold. */
  predicate Signed64(n: int)
  {
    -0x8000_0000_0000_0000 <= n < 0x8000_0000_0000_0000
  }

  /** The eight bytes of a number in two's complement, the most significant first. */
  function BigEndian(n: int): (bytes: seq<nat>)
    requires Signed64(n)
    ensures |bytes| == 8 && InBase(256, bytes)
  {
    Fixed(256, if n < 0 then n + WORD else n, 8)
  }

  function ReachByte(reach: Reach): nat
  {
    match reach
    case Everyone => 0
    case SelfOnly => 1
    case Nobody => 2
  }

  predicate Storable(items: seq<Item>)
  {
    forall i | 0 <= i < |items| :: Signed64(items[i].key.chat) && Signed64(items[i].key.id)
  }

  function ItemBytes(item: Item): (bytes: seq<nat>)
    requires Signed64(item.key.chat) && Signed64(item.key.id)
    ensures |bytes| == 17
  {
    BigEndian(item.key.chat) + BigEndian(item.key.id) + [ReachByte(item.reach)]
  }

  /** The items as they go into the digest, one after the other. */
  function Contents(items: seq<Item>): (bytes: seq<nat>)
    requires Storable(items)
    ensures |bytes| == 17 * |items|
  {
    if |items| == 0 then [] else Contents(items[..|items| - 1]) + ItemBytes(items[|items| - 1])
  }

  /** The name of the operation, then the items; a selection has no target. */
  function Fingerprint(digest: seq<nat> -> string, operation: seq<nat>, items: seq<Item>): string
    requires Storable(items)
  {
    digest(operation + Contents(items))
  }

  lemma BigEndianInjective(a: int, b: int)
    requires Signed64(a) && Signed64(b) && BigEndian(a) == BigEndian(b)
    ensures a == b
  {
    hide Fixed, Value;
    WordIsPower();
    FixedValue(256, if a < 0 then a + WORD else a, 8);
    FixedValue(256, if b < 0 then b + WORD else b, 8);
  }

  lemma WordIsPower()
    ensures Power(256, 8) == 0x1_0000_0000_0000_0000
  {
    assert Power(256, 2) == 0x1_0000;
    assert Power(256, 4) == 0x1_0000_0000;
    assert Power(256, 6) == 0x1_0000_0000_0000;
  }

  lemma ItemBytesInjective(a: Item, b: Item)
    requires Signed64(a.key.chat) && Signed64(a.key.id) && Signed64(b.key.chat) && Signed64(b.key.id)
    requires ItemBytes(a) == ItemBytes(b)
    ensures a == b
  {
    hide BigEndian;
    assert ItemBytes(a)[..8] == BigEndian(a.key.chat) && ItemBytes(a)[8..16] == BigEndian(a.key.id);
    assert ItemBytes(b)[..8] == BigEndian(b.key.chat) && ItemBytes(b)[8..16] == BigEndian(b.key.id);
    assert ItemBytes(a)[16] == ReachByte(a.reach) && ItemBytes(b)[16] == ReachByte(b.reach);
    BigEndianInjective(a.key.chat, b.key.chat);
    BigEndianInjective(a.key.id, b.key.id);
  }

  /** The bytes of a list of items determine it: no two lists of items share their contents. */
  lemma {:induction false} ContentsInjective(a: seq<Item>, b: seq<Item>)
    requires Storable(a) && Storable(b) && Contents(a) == Contents(b)
    ensures a == b
  {
    hide ItemBytes;
    if |a| > 0 {
      var n := |a| - 1;
      assert Contents(a)[..17 * n] == Contents(a[..n]) && Contents(b)[..17 * n] == Contents(b[..n]);
      assert Contents(a)[17 * n..] == ItemBytes(a[n]) && Contents(b)[17 * n..] == ItemBytes(b[n]);
      ContentsInjective(a[..n], b[..n]);
      ItemBytesInjective(a[n], b[n]);
      assert a == a[..n] + [a[n]] && b == b[..n] + [b[n]];
    }
  }

  ghost predicate Injective(digest: seq<nat> -> string)
  {
    forall x, y :: digest(x) == digest(y) ==> x == y
  }

  /** With a digest without collisions, plans of one operation have the same fingerprint exactly when they have
      the same items in the same order. */
  lemma FingerprintBindsItems(digest: seq<nat> -> string, operation: seq<nat>, a: seq<Item>, b: seq<Item>)
    requires Injective(digest) && Storable(a) && Storable(b)
    ensures Fingerprint(digest, operation, a) == Fingerprint(digest, operation, b) <==> a == b
  {
    hide Contents;
    if Fingerprint(digest, operation, a) == Fingerprint(digest, operation, b) {
      assert (operation + Contents(a))[|operation|..] == Contents(a);
      assert (operation + Contents(b))[|operation|..] == Contents(b);
      ContentsInjective(a, b);
    }
  }

  /** The reviewed selection, its fingerprint and what a later selection can show: the fingerprints agree exactly
      when the first messages of every key are the same items. */
  lemma FingerprintOfSelection(digest: seq<nat> -> string, operation: seq<nat>, a: seq<Item>, b: seq<Item>)
    requires Injective(digest) && Storable(Sort(FirstOfEach(a))) && Storable(Sort(FirstOfEach(b)))
    ensures Fingerprint(digest, operation, Sort(FirstOfEach(a))) == Fingerprint(digest, operation, Sort(FirstOfEach(b)))
       <==> Elements(FirstOfEach(a)) == Elements(FirstOfEach(b))
  {
    hide Sort, FirstOfEach, Elements, Fingerprint, Ascending, Keys, Injective;
    FirstOfEachKeys(a);
    FirstOfEachKeys(b);
    SortMeans(FirstOfEach(a));
    SortMeans(FirstOfEach(b));
    FingerprintBindsItems(digest, operation, Sort(FirstOfEach(a)), Sort(FirstOfEach(b)));
    if Elements(FirstOfEach(a)) == Elements(FirstOfEach(b)) {
      AscendingIsUnique(Sort(FirstOfEach(a)), Sort(FirstOfEach(b)));
    }
  }
}
