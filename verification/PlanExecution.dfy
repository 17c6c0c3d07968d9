/** From a reviewed plan to the mutations of its runs. */
module PlanExecution {
  import opened Options
  import opened DeletionPlan
  import opened Batches
  import opened FrozenBatches
  import opened FrozenRuns

  /** The frozen batches of a plan. */
  ghost function Frozen(plan: Plan, k: nat): seq<seq<Key>>
    requires k > 0
  {
    FrozenTargets(BatchesFor(plan.items, Chats(plan.items), k))
  }

  function FrozenTargets(batches: seq<Batch>): (r: seq<seq<Key>>)
    ensures |r| == |batches|
  {
    if |batches| == 0 then []
    else FrozenTargets(batches[..|batches| - 1]) + [Targets(batches[|batches| - 1])]
  }

  // ----- the targets of all batches -----

  lemma {:induction false} FrozenAt(batches: seq<Batch>, b: nat)
    requires b < |batches|
    ensures FrozenTargets(batches)[b] == Targets(batches[b])
  {
    if b < |batches| - 1 {
      FrozenAt(batches[..|batches| - 1], b);
    }
  }

  lemma {:induction false} FrozenSizes(batches: seq<Batch>)
    ensures Sizes(FrozenTargets(batches)) == |AllTargets(batches)|
  {
    if |batches| > 0 {
      var shorter, last := batches[..|batches| - 1], batches[|batches| - 1];
      FrozenSizes(shorter);
      assert batches == shorter + [last];
      AllTargetsAppend(shorter, [last]);
      assert FrozenTargets(batches)[..|shorter|] == FrozenTargets(shorter);
      assert AllTargets([]) == [];
      assert AllTargets([last]) == Targets(last);
    }
  }

  lemma {:induction false} TargetOfBatch(batches: seq<Batch>, b: nat, x: Key)
    requires b < |batches| && x in Targets(batches[b])
    ensures x in AllTargets(batches)
  {
    if b > 0 {
      TargetOfBatch(batches[1..], b - 1, x);
    }
  }

  ghost predicate NoRepeat(keys: seq<Key>)
  {
    forall i, j :: 0 <= i < j < |keys| ==> keys[i] != keys[j]
  }

  lemma Disjoint(a: seq<Key>, b: seq<Key>, x: Key)
    requires NoRepeat(a + b)
    ensures !(x in a && x in b) && NoRepeat(b)
  {
    forall i, j | 0 <= i < |a| && 0 <= j < |b| ensures a[i] != b[j] {
      assert (a + b)[i] == a[i] && (a + b)[|a| + j] == b[j];
    }
    forall i, j | 0 <= i < j < |b| ensures b[i] != b[j] {
      assert (a + b)[|a| + i] == b[i] && (a + b)[|a| + j] == b[j];
    }
  }

  /** A target is in one batch only. */
  lemma {:induction false} OneBatchOnly(batches: seq<Batch>, b: nat, c: nat, x: Key)
    requires NoRepeat(AllTargets(batches)) && b < c < |batches|
    ensures !(x in Targets(batches[b]) && x in Targets(batches[c]))
  {
    Disjoint(Targets(batches[0]), AllTargets(batches[1..]), x);
    if b > 0 {
      OneBatchOnly(batches[1..], b - 1, c - 1, x);
    } else if x in Targets(batches[c]) {
      TargetOfBatch(batches[1..], c - 1, x);
    }
  }

  // ----- the wanted items -----

  lemma {:induction false} WantedOnly(items: seq<Item>, chats: set<int>, x: Key)
    requires Chats(items) <= chats
    ensures x in WantedIn(items, chats) <==> Item(x, Everyone) in items
    ensures |WantedIn(items, chats)| == Count(items, Everyone)
  {
    if |items| > 0 {
      var shorter, last := items[..|items| - 1], items[|items| - 1];
      WantedOnly(shorter, chats, x);
      assert items == shorter + [last];
    }
  }

  lemma {:induction false} WantedOnce(items: seq<Item>, chats: set<int>)
    requires Ascending(items) && Chats(items) <= chats
    ensures NoRepeat(WantedIn(items, chats))
  {
    if |items| > 0 {
      var shorter, last := items[..|items| - 1], items[|items| - 1];
      WantedOnce(shorter, chats);
      WantedOnly(shorter, chats, last.key);
      assert Item(last.key, Everyone) !in shorter;
    }
  }

  /** The batches hold exactly the everyone-reach items, in order and without repetition. */
  lemma FrozenHoldsWanted(plan: Plan, k: nat)
    requires Prepared(plan) && k > 0
    ensures var all := AllTargets(BatchesFor(plan.items, Chats(plan.items), k));
      && all == WantedIn(plan.items, Chats(plan.items)) && NoRepeat(all)
      && (forall x :: x in all <==> Item(x, Everyone) in plan.items)
      && |all| == plan.summary.deleteForEveryone == Sizes(Frozen(plan, k))
  {
    hide BatchesFor, WantedIn, AllTargets, Sizes, FrozenTargets, Chats, NoRepeat, Count;
    BatchesInOrder(plan.items, Chats(plan.items), k);
    WantedOnce(plan.items, Chats(plan.items));
    forall x ensures x in WantedIn(plan.items, Chats(plan.items)) <==> Item(x, Everyone) in plan.items {
      WantedOnly(plan.items, Chats(plan.items), x);
    }
    WantedOnly(plan.items, Chats(plan.items), Key(0, 0));
    FrozenSizes(BatchesFor(plan.items, Chats(plan.items), k));
  }

  // ----- whole runs -----

  /** The mutated targets of an event are targets of its batch. */
  lemma MutatedFromBatch<T>(batches: seq<seq<T>>, next: nat, script: seq<Reply>, k: nat, x: T)
    requires k < |Run(batches, next, script).trace|
    ensures var event := Run(batches, next, script).trace[k];
      event.Mutated? ==> event.batch < |batches| && (x in event.targets ==> x in batches[event.batch])
  {
    hide Run, Granted;
    var trace := Run(batches, next, script).trace;
    if trace[k].Mutated? {
      MutatesOnlyGranted(batches, next, script, k);
      var n := |batches[trace[k].batch]|;
      var asked := trace[..k][..k - 1];
      GrantedExactly(batches[trace[k].batch], trace[k].batch, asked[|asked| - n..]);
    }
  }

  /** Only items reviewed as deletable for everyone are mutated, never a self-only or protected one. */
  lemma MutatesOnlyReviewed(plan: Plan, k: nat, next: nat, script: seq<Reply>, t: nat, x: Key)
    requires Prepared(plan) && k > 0
    requires t < |Run(Frozen(plan, k), next, script).trace|
    ensures var event := Run(Frozen(plan, k), next, script).trace[t];
      event.Mutated? && x in event.targets ==>
        forall item :: item in plan.items && item.key == x ==> item.reach == Everyone
    ensures var event := Run(Frozen(plan, k), next, script).trace[t];
      event.Mutated? && x in event.targets ==> Item(x, Everyone) in plan.items
  {
    hide Run, BatchesFor, AllTargets, Sizes, FrozenTargets, Chats, Prepared;
    var event := Run(Frozen(plan, k), next, script).trace[t];
    var batches := BatchesFor(plan.items, Chats(plan.items), k);
    MutatedFromBatch(Frozen(plan, k), next, script, t, x);
    FrozenHoldsWanted(plan, k);
    if event.Mutated? && x in event.targets {
      FrozenAt(batches, event.batch);
      TargetOfBatch(batches, event.batch, x);
      OneReach(plan, x);
    }
  }

  lemma OneReach(plan: Plan, x: Key)
    requires Prepared(plan) && Item(x, Everyone) in plan.items
    ensures forall item :: item in plan.items && item.key == x ==> item.reach == Everyone
  {
  }

  /** A message deleted with success is never mutated again. */
  lemma NeverTwice(plan: Plan, k: nat, next: nat, script: seq<Reply>, s: nat, t: nat, x: Key)
    requires Prepared(plan) && k > 0
    requires s < t < |Run(Frozen(plan, k), next, script).trace|
    ensures var trace := Run(Frozen(plan, k), next, script).trace;
      trace[s].Mutated? && trace[s].reply.Answer? && x in trace[s].targets && trace[t].Mutated? ==>
        x !in trace[t].targets
  {
    hide Run, BatchesFor, AllTargets, Sizes, FrozenTargets, Chats, Prepared, NoRepeat;
    var trace := Run(Frozen(plan, k), next, script).trace;
    var batches := BatchesFor(plan.items, Chats(plan.items), k);
    SucceedsAtMostOnce(Frozen(plan, k), next, script, s, t);
    MutatedFromBatch(Frozen(plan, k), next, script, s, x);
    MutatedFromBatch(Frozen(plan, k), next, script, t, x);
    FrozenHoldsWanted(plan, k);
    if trace[s].Mutated? && trace[s].reply.Answer? && trace[t].Mutated? {
      FrozenAt(batches, trace[s].batch);
      FrozenAt(batches, trace[t].batch);
      OneBatchOnly(batches, trace[s].batch, trace[t].batch, x);
    }
  }

  /** A run that stops at any point and a run resumed at its cursor that completes account together
      for every everyone-reach item of the plan, each once. */
  lemma ResumedRunAccountsForAll(plan: Plan, k: nat, first: seq<Reply>, second: seq<Reply>)
    requires Prepared(plan) && k > 0
    ensures var stopped := Run(Frozen(plan, k), 0, first);
      var resumed := Run(Frozen(plan, k), Reports(stopped.trace), second);
      resumed.phase == Done(Finished(false)) ==>
        Accounted(stopped.trace) + Accounted(resumed.trace) == plan.summary.deleteForEveryone
  {
    hide Run, Sizes, Accounted, Reports, Prepared, Frozen;
    var batches := Frozen(plan, k);
    FrozenHoldsWanted(plan, k);
    RunCursor(batches, 0, first);
    NothingReported(batches);
    CompleteRunAccountsForAll(batches, Reports(Run(batches, 0, first).trace), second);
  }

  lemma NothingReported<T>(batches: seq<seq<T>>)
    ensures Sizes(batches[..0]) == 0 && Reports<T>([]) == 0
  {
  }
}
