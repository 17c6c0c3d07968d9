/** What a valid state amounts to, in one place and without the maps and helpers that check it. */
module StateRules {
  import opened FoundationState
  import opened Options
  import opened PlanRules
  import opened RemediationPlan
  import opened Sealing

  ghost predicate Labelled(payload: Payload)
  {
    payload.version > 0 && Readable(payload.schema, 128)
  }

  lemma PayloadMeans(payload: Payload)
    ensures PayloadValid(payload) <==> Labelled(payload)
  {
    hide BoundedText, Readable;
    BoundedMeansReadable(payload.schema, 128);
  }

  // ----- accounts and sources -----

  ghost predicate AccountInOrder(a: Account, provider: string)
  {
    && a.provider == provider && Labelled(a.nativeIdentity) && a.createdAt <= a.lastSeenAt
    && match a.avatar
       case Some(avatar) => Labelled(avatar)
       case None => true
  }

  /** A live connection has no archive; an import has one, with a fingerprint that can be read. */
  ghost predicate SourceInOrder(source: Source, provider: string)
  {
    && source.provider == provider && Labelled(source.schemaProfile)
    && match source.kind
       case LiveConnection => source.archiveFingerprint == None && source.importedAt == None
       case ArchiveImport => source.archiveFingerprint.Some? && Readable(source.archiveFingerprint.value, 256)
  }

  lemma AccountMeans(a: Account, provider: string)
    ensures AccountValid(a) && a.provider == provider <==> AccountInOrder(a, provider)
  {
    hide PayloadValid, Labelled;
    PayloadMeans(a.nativeIdentity);
    if a.avatar.Some? { PayloadMeans(a.avatar.value); }
  }

  lemma SourceMeans(source: Source, a: Account, provider: string)
    ensures SourceValid(source, a) && source.provider == provider <==>
      && SourceInOrder(source, provider) && AccountInOrder(a, provider) && source.account == a.id
  {
    hide PayloadValid, Labelled, BoundedText, Readable;
    PayloadMeans(source.schemaProfile);
    AccountMeans(a, a.provider);
    AccountMeans(a, provider);
    if source.archiveFingerprint.Some? { BoundedMeansReadable(source.archiveFingerprint.value, 256); }
  }

  // ----- jobs -----

  /** What a status allows a job to have: a start that was authorized, a time to retry, unclear outcomes. */
  predicate StatusAllows(job: Job)
  {
    match job.status
    case Queued => job.counters.uncertain == 0
    case Running => job.startedAuthorized && job.counters.uncertain == 0
    case Blocked =>
      && job.counters.uncertain == 0 && job.retryAt == None
      && (IdentityUnavailable in job.diagnostics || ScopeMismatchCode in job.diagnostics
          || StaleContext in job.diagnostics)
    case Completed =>
      job.startedAuthorized && job.retryAt == None && job.counters.failed == 0 && job.counters.uncertain == 0
    case Partial => job.startedAuthorized && job.retryAt == None
    case Failed => job.retryAt == None
    case Cancelled => job.retryAt == None
  }

  predicate JobInOrder(job: Job)
  {
    && job.id != 0 && job.createdAt <= job.updatedAt
    && StatusAllows(job)
    && job.counters.skipped <= job.counters.selected
    && job.counters.deleted + job.counters.failed + job.counters.uncertain
      <= job.counters.eligible <= job.counters.selected
    && job.counters.deleted + job.counters.failed + job.counters.uncertain <= 18446744073709551615
  }

  lemma JobShapeMeans(job: Job)
    ensures JobShape(job) <==> JobInOrder(job)
  {
    if exists i :: 0 <= i < |job.diagnostics| && Explains(job.diagnostics[i]) {
      var i :| 0 <= i < |job.diagnostics| && Explains(job.diagnostics[i]);
      assert job.diagnostics[i] in job.diagnostics;
    }
  }

  /** So many batches of at most `size` targets hold them all, and fewer would not. */
  predicate JustEnough(batches: nat, size: nat, targets: nat)
  {
    batches * size >= targets && (batches > 0 ==> (batches - 1) * size < targets)
  }

  lemma BatchesSuffice(step: Step)
    requires step.descriptor.maxTargets > 0
    ensures JustEnough(BatchesOf(step), step.descriptor.maxTargets, |step.targets|)
  {
    var n, m := |step.targets|, step.descriptor.maxTargets;
    var k := (n + m - 1) / m;
    assert k * m <= n + m - 1 < k * m + m;
    assert (k - 1) * m == k * m - m;
  }

  lemma {:induction false} BatchCountAdds(a: seq<Step>, b: seq<Step>)
    ensures BatchCount(a + b) == BatchCount(a) + BatchCount(b)
  {
    hide BatchesOf;
    if |b| == 0 {
      assert a + b == a;
    } else {
      BatchCountAdds(a, b[..|b| - 1]);
      assert (a + b)[..|a + b| - 1] == a + b[..|b| - 1];
    }
  }

  lemma BatchCountOne(step: Step)
    ensures BatchCount([step]) == BatchesOf(step)
  {
    assert [step][..0] == [];
  }

  // ----- the whole state -----

  /** A plan lists this reference among its targets, or a job among those it left in doubt. */
  ghost predicate Mentioned(s: State, ref: Ref)
  {
    || (exists i :: 0 <= i < |s.plans| && ref in s.plans[i].targets)
    || (exists i :: 0 <= i < |s.jobs| && ref in s.jobs[i].dirty)
  }

  /** The scope is that of a source of the state. */
  ghost predicate FromSource(s: State, scope: Scope)
  {
    exists source :: source in s.sources
      && source.provider == scope.provider && source.account == scope.account && source.id == scope.source
  }

  /** A job belongs to a plan of the state, and has got no further than its last batch. */
  ghost predicate JobOfPlan(s: State, job: Job)
  {
    exists plan :: plan in s.plans
      && plan.id == job.planId && plan.scope == job.scope && job.nextBatch <= BatchCount(plan.steps)
  }

  /** What came from a legacy store is history: it runs no more, and says so if it wants a new review. */
  predicate Historic(e: LegacyEntry)
  {
    && e.id != 0 && e.planId != 0 && e.createdAt <= e.updatedAt && e.executable == false
    && (MigrationRequiresNewReview !in e.diagnostics || e.status == Failed || e.status == Partial)
  }

  /** The text of a SHA-256 digest: its prefix and 64 digits. */
  predicate DigestText(text: string)
  {
    |text| == 7 + 64 && text[..7] == ['s', 'h', 'a', '2', '5', '6', ':']
      && forall c | c in text[7..] :: c in "0123456789abcdef"
  }

  lemma DigestTextMeans(text: string)
    ensures Sha256Text(text) <==> DigestText(text)
  {
    if |text| == 71 {
      forall i | 7 <= i < 71 ensures LowerHex(text[i]) <==> text[i] in "0123456789abcdef" { HexDigits(text[i]); }
      assert forall i | 7 <= i < 71 :: text[i] == text[7..][i - 7];
    }
  }

  lemma HexDigits(c: char)
    ensures LowerHex(c) <==> c in "0123456789abcdef"
  {
  }

  /** The resource that a reference gives its identity to, up to the order of JSON keys. */
  function NameIn(ref: Ref): (int, Resource)
  {
    (ref.id, CanonRef(ref).resource)
  }

  lemma {:induction false} InPlanNames(plans: seq<Plan>, x: (int, Resource))
    ensures x in PlanNames(plans) <==>
      exists i, ref :: 0 <= i < |plans| && ref in plans[i].targets && NameIn(ref) == x
  {
    if |plans| > 0 {
      hide CanonRef;
      var n := |plans| - 1;
      InPlanNames(plans[..n], x);
      InNamed(plans[n].targets, x);
      if i, ref :| 0 <= i < n && ref in plans[i].targets && NameIn(ref) == x { assert plans[..n][i] == plans[i]; }
    }
  }

  lemma InNamed(refs: seq<Ref>, x: (int, Resource))
    ensures x in Named(refs) <==> exists ref :: ref in refs && NameIn(ref) == x
  {
    if x in Named(refs) {
      var i :| 0 <= i < |refs| && (refs[i].id, CanonRef(refs[i]).resource) == x;
      assert refs[i] in refs && NameIn(refs[i]) == x;
    }
    if ref :| ref in refs && NameIn(ref) == x {
      var i :| 0 <= i < |refs| && refs[i] == ref;
    }
  }

  lemma {:induction false} InJobNames(jobs: seq<Job>, x: (int, Resource))
    ensures x in JobNames(jobs) <==> exists i, ref :: 0 <= i < |jobs| && ref in jobs[i].dirty && NameIn(ref) == x
  {
    if |jobs| > 0 {
      hide CanonRef;
      var n := |jobs| - 1;
      InJobNames(jobs[..n], x);
      InNamed(jobs[n].dirty, x);
      if i, ref :| 0 <= i < n && ref in jobs[i].dirty && NameIn(ref) == x { assert jobs[..n][i] == jobs[i]; }
    }
  }

  lemma NamesMean(s: State)
    ensures Functional(PlanNames(s.plans) + JobNames(s.jobs)) <==>
      forall a, b :: Mentioned(s, a) && Mentioned(s, b) && a.id == b.id ==> NameIn(a) == NameIn(b)
  {
    hide CanonRef, PlanNames, JobNames;
    var names := PlanNames(s.plans) + JobNames(s.jobs);
    forall x ensures x in names <==> exists ref :: Mentioned(s, ref) && NameIn(ref) == x {
      InPlanNames(s.plans, x);
      InJobNames(s.jobs, x);
    }
    if Functional(names) {
      forall a, b | Mentioned(s, a) && Mentioned(s, b) && a.id == b.id ensures NameIn(a) == NameIn(b) {
        assert NameIn(a) in names && NameIn(b) in names;
      }
    }
  }

  ghost predicate AccountsInOrder(s: State)
  {
    && (forall i :: 0 <= i < |s.accounts| ==> AccountInOrder(s.accounts[i], s.binding.provider))
    && (forall i, j :: 0 <= i < j < |s.accounts| ==> s.accounts[i].id != s.accounts[j].id)
  }

  ghost predicate SourcesInOrder(s: State)
  {
    && (forall i :: 0 <= i < |s.sources| ==>
          SourceInOrder(s.sources[i], s.binding.provider) && OfAccount(s, s.sources[i]))
    && (forall i, j :: 0 <= i < j < |s.sources| ==> s.sources[i].id != s.sources[j].id)
  }

  ghost predicate OfAccount(s: State, source: Source)
  {
    exists a :: a in s.accounts && a.id == source.account
  }

  ghost predicate PlansInOrder(h: Hashes, s: State)
  {
    && (forall i :: 0 <= i < |s.plans| ==> Valid(h, s.plans[i]) && FromSource(s, s.plans[i].scope))
    && (forall i, j :: 0 <= i < j < |s.plans| ==> s.plans[i].id != s.plans[j].id)
  }

  ghost predicate JobsInOrder(h: Hashes, s: State)
  {
    && (forall i :: 0 <= i < |s.jobs| ==>
          && JobInOrder(s.jobs[i]) && JobOfPlan(s, s.jobs[i]) && FromSource(s, s.jobs[i].scope)
          && (forall ref :: ref in s.jobs[i].dirty ==> Belongs(h, ref, s.jobs[i].scope)))
    && (forall i, j :: 0 <= i < j < |s.jobs| ==> s.jobs[i].id != s.jobs[j].id)
  }

  /** One identity stands for one resource everywhere. */
  ghost predicate OneName(s: State)
  {
    forall a, b :: Mentioned(s, a) && Mentioned(s, b) && a.id == b.id ==> NameIn(a) == NameIn(b)
  }

  ghost predicate HistoryInOrder(s: State)
  {
    && (forall i :: 0 <= i < |s.history| ==> Historic(s.history[i]))
    && (forall i, j :: 0 <= i < j < |s.history| ==> s.history[i].id != s.history[j].id)
    && (forall i, j :: 0 <= i < |s.history| && 0 <= j < |s.jobs| ==> s.history[i].id != s.jobs[j].id)
    && (s.migration == None ==> |s.history| == 0)
    && (s.migration.Some? ==> s.migration.value.sourceBytes > 0 && DigestText(s.migration.value.sourceSha256))
  }

  ghost predicate StateInOrder(h: Hashes, binding: StoreBinding, s: State)
  {
    && s.schemaVersion == 3 && Readable(binding.profile, 256)
    && s.binding.provider == binding.provider && s.binding.profile == binding.profile
    && AccountsInOrder(s) && SourcesInOrder(s) && PlansInOrder(h, s) && JobsInOrder(h, s) && OneName(s)
    && HistoryInOrder(s)
  }

  lemma AccountsMean(s: State)
    ensures AccountsValid(s) <==> AccountsInOrder(s)
  {
    hide AccountValid, AccountInOrder;
    forall i | 0 <= i < |s.accounts|
      ensures AccountValid(s.accounts[i]) && s.accounts[i].provider == s.binding.provider <==>
        AccountInOrder(s.accounts[i], s.binding.provider)
    {
      AccountMeans(s.accounts[i], s.binding.provider);
    }
  }

  lemma SourcesMean(s: State)
    requires AccountsInOrder(s)
    ensures SourcesValid(s) <==> SourcesInOrder(s)
  {
    hide SourceValid, SourceInOrder, AccountInOrder;
    forall i, a | 0 <= i < |s.sources| && 0 <= a < |s.accounts|
      ensures SourceValid(s.sources[i], s.accounts[a]) && s.sources[i].provider == s.binding.provider <==>
        SourceInOrder(s.sources[i], s.binding.provider) && s.sources[i].account == s.accounts[a].id
    {
      SourceMeans(s.sources[i], s.accounts[a], s.binding.provider);
      assert AccountInOrder(s.accounts[a], s.binding.provider);
    }
    forall i | 0 <= i < |s.sources|
      ensures OfAccount(s, s.sources[i]) <==>
        exists a :: 0 <= a < |s.accounts| && s.sources[i].account == s.accounts[a].id
    {
    }
    forall i | 0 <= i < |s.sources| && SourceInOrder(s.sources[i], s.binding.provider)
      ensures s.sources[i].provider == s.binding.provider
    {
      SourceProvider(s.sources[i], s.binding.provider);
    }
  }

  lemma SourceProvider(source: Source, provider: string)
    requires SourceInOrder(source, provider)
    ensures source.provider == provider
  {
  }

  lemma OwnedMeans(s: State, scope: Scope)
    ensures Owned(s, scope) <==> FromSource(s, scope)
  {
  }

  lemma PlansMean(h: Hashes, s: State)
    ensures PlansValid(h, s) <==> PlansInOrder(h, s)
  {
    hide Valid, Owned, FromSource;
    forall scope ensures Owned(s, scope) <==> FromSource(s, scope) { OwnedMeans(s, scope); }
  }

  lemma DirtyMeans(h: Hashes, s: State, job: Job)
    requires OneName(s) && job in s.jobs
    ensures Acceptable(h, CanonSet(job.dirty), job.scope) <==>
      forall ref :: ref in job.dirty ==> Belongs(h, ref, job.scope)
  {
    hide Readable, CanonSet, Acceptable;
    AcceptableMeans(h, job.dirty, job.scope);
    var i :| 0 <= i < |s.jobs| && s.jobs[i] == job;
    forall a, b |
      a in job.dirty && b in job.dirty && a.id == b.id && Belongs(h, a, job.scope) && Belongs(h, b, job.scope)
      ensures CanonRef(a) == CanonRef(b)
    {
      assert Mentioned(s, a) && Mentioned(s, b);
      assert NameIn(a) == NameIn(b);
    }
  }

  lemma JobsMean(h: Hashes, s: State)
    requires PlansInOrder(h, s) && OneName(s)
    ensures JobsValid(h, s) <==> JobsInOrder(h, s)
  {
    hide Valid, Owned, FromSource, OneName, JobShape, JobInOrder, Acceptable, CanonSet, Belongs, BatchCount;
    forall scope ensures Owned(s, scope) <==> FromSource(s, scope) { OwnedMeans(s, scope); }
    forall i | 0 <= i < |s.jobs|
      ensures HasPlan(h, s, s.jobs[i]) <==>
        && JobInOrder(s.jobs[i]) && JobOfPlan(s, s.jobs[i])
        && forall ref :: ref in s.jobs[i].dirty ==> Belongs(h, ref, s.jobs[i].scope)
    {
      JobShapeMeans(s.jobs[i]);
      DirtyMeans(h, s, s.jobs[i]);
    }
  }

  lemma HistoryMeans(s: State)
    ensures HistoryValid(s) <==> HistoryInOrder(s)
  {
    hide Sha256Text, DigestText;
    if s.migration.Some? { DigestTextMeans(s.migration.value.sourceSha256); }
  }

  /** The loops over the maps accept exactly the states that are in order. */
  lemma StateValidMeans(h: Hashes, binding: StoreBinding, s: State)
    ensures StateValid(h, binding, s) <==> StateInOrder(h, binding, s)
  {
    hide BoundedText, Readable, AccountsValid, AccountsInOrder, SourcesValid, SourcesInOrder, PlansValid, PlansInOrder,
         JobsValid, JobsInOrder, HistoryValid, HistoryInOrder, OneName, PlanNames, JobNames;
    BoundedMeansReadable(binding.profile, 256);
    AccountsMean(s);
    if AccountsInOrder(s) { SourcesMean(s); }
    PlansMean(h, s);
    assert OneName(s) <==> Functional(PlanNames(s.plans) + JobNames(s.jobs)) by { OneNameMeans(s); }
    if PlansInOrder(h, s) && OneName(s) { JobsMean(h, s); }
    HistoryMeans(s);
  }

  lemma OneNameMeans(s: State)
    ensures OneName(s) <==> Functional(PlanNames(s.plans) + JobNames(s.jobs))
  {
    hide PlanNames, JobNames, CanonRef, Mentioned;
    NamesMean(s);
  }
}
