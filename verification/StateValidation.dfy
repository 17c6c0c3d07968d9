/** The loops that decide whether a state is valid. */
module StateValidation {
  import opened FoundationState
  import opened Options
  import opened RemediationPlan
  import opened Sealing

  // ----- resources by identity -----

  /** The map holds exactly these names; they are then functional. */
  ghost predicate Holds(resources: map<int, Resource>, names: set<(int, Resource)>)
  {
    && (forall id :: id in resources ==> (id, CanonResource(resources[id])) in names)
    && forall x :: x in names ==> x.0 in resources && CanonResource(resources[x.0]) == x.1
  }

  function CanonResource(r: Resource): Resource
  {
    CanonRef(Ref(Scope("", 0, 0), 0, r)).resource
  }

  lemma NamedSnoc(refs: seq<Ref>, i: nat)
    requires i < |refs|
    ensures Named(refs[..i + 1]) == Named(refs[..i]) + {(refs[i].id, CanonResource(refs[i].resource))}
    ensures Named(refs[..i + 1]) <= Named(refs)
  {
    var before, longer, name := refs[..i], refs[..i + 1], (refs[i].id, CanonResource(refs[i].resource));
    forall x ensures x in Named(longer) <==> x in Named(before) + {name} {
      if x in Named(before) {
        var j :| 0 <= j < |before| && (before[j].id, CanonRef(before[j]).resource) == x;
        assert longer[j] == before[j];
      }
      assert longer[i] == refs[i];
    }
    forall x | x in Named(longer) ensures x in Named(refs) {
      var j :| 0 <= j < |longer| && (longer[j].id, CanonRef(longer[j]).resource) == x;
      assert refs[j] == longer[j];
    }
  }

  /** Enters references one by one; none where an identity already stands for another resource. */
  method EnterResources(resources: map<int, Resource>, refs: seq<Ref>, ghost names: set<(int, Resource)>)
    returns (r: Option<map<int, Resource>>)
    requires Holds(resources, names)
    ensures r.Some? <==> Functional(names + Named(refs))
    ensures r.Some? ==> Holds(r.value, names + Named(refs))
  {
    hide Named;
    var m := resources;
    NoNames();
    for i := 0 to |refs|
      invariant Holds(m, names + Named(refs[..i]))
    {
      NamedSnoc(refs, i);
      var ref := refs[i];
      if ref.id in m && CanonResource(m[ref.id]) != CanonResource(ref.resource) {
        Clash(names + Named(refs), (ref.id, CanonResource(m[ref.id])), (ref.id, CanonResource(ref.resource)));
        return None;
      }
      assert names + Named(refs[..i + 1]) == names + Named(refs[..i]) + {(ref.id, CanonResource(ref.resource))};
      m := m[ref.id := ref.resource];
    }
    assert refs[..|refs|] == refs;
    HeldIsFunctional(m, names + Named(refs));
    return Some(m);
  }

  lemma NoNames()
    ensures Named([]) == {}
    ensures forall names: set<(int, Resource)> :: names + {} == names
    ensures forall refs: seq<Ref> :: refs[..0] == []
  {
  }

  lemma Clash(names: set<(int, Resource)>, x: (int, Resource), y: (int, Resource))
    requires x in names && y in names && x.0 == y.0 && x != y
    ensures !Functional(names)
  {
  }

  lemma HeldIsFunctional(m: map<int, Resource>, names: set<(int, Resource)>)
    requires Holds(m, names)
    ensures Functional(names)
  {
  }

  lemma FewerNames(a: set<(int, Resource)>, b: set<(int, Resource)>)
    requires a <= b
    ensures Functional(b) ==> Functional(a)
  {
  }

  // ----- accounts and sources -----

  method CheckAccounts(s: State) returns (r: Option<map<int, Account>>)
    ensures r.Some? <==> AccountsValid(s)
    ensures r.Some? ==> KeyedBy(r.value, s.accounts, AccountId)
  {
    hide AccountValid, KeyedBy, Distinct;
    var m: map<int, Account> := map[];
    NoRows(s.accounts, AccountId);
    for i := 0 to |s.accounts|
      invariant KeyedBy(m, s.accounts[..i], AccountId) && Distinct(s.accounts[..i], AccountId)
      invariant forall j :: 0 <= j < i ==> AccountValid(s.accounts[j]) && s.accounts[j].provider == s.binding.provider
    {
      Enter(m, s.accounts, i, AccountId);
      var account := s.accounts[i];
      if !AccountValid(account) || account.provider != s.binding.provider || account.id in m {
        return None;
      }
      m := m[account.id := account];
    }
    assert s.accounts[..|s.accounts|] == s.accounts;
    return Some(m);
  }

  lemma NoRows<T(!new)>(rows: seq<T>, id: T -> int)
    ensures KeyedBy(map[], rows[..0], id) && Distinct(rows[..0], id)
  {
  }

  lemma AccountOf(s: State, accounts: map<int, Account>, source: Source)
    requires KeyedBy(accounts, s.accounts, AccountId)
    ensures (exists a :: 0 <= a < |s.accounts| && SourceValid(source, s.accounts[a])) <==>
      source.account in accounts && SourceValid(source, accounts[source.account])
  {
    hide AccountValid, PayloadValid, BoundedText;
    if a :| 0 <= a < |s.accounts| && SourceValid(source, s.accounts[a]) {
      assert AccountId(s.accounts[a]) in accounts;
    }
  }

  method CheckSources(s: State, accounts: map<int, Account>) returns (r: Option<map<int, Source>>)
    requires KeyedBy(accounts, s.accounts, AccountId)
    ensures r.Some? <==> SourcesValid(s)
    ensures r.Some? ==> KeyedBy(r.value, s.sources, SourceId)
  {
    hide SourceValid, KeyedBy, Distinct;
    var m: map<int, Source> := map[];
    NoRows(s.sources, SourceId);
    for i := 0 to |s.sources|
      invariant KeyedBy(m, s.sources[..i], SourceId) && Distinct(s.sources[..i], SourceId)
      invariant forall j :: 0 <= j < i ==>
        && s.sources[j].provider == s.binding.provider
        && exists a :: 0 <= a < |s.accounts| && SourceValid(s.sources[j], s.accounts[a])
    {
      Enter(m, s.sources, i, SourceId);
      var source := s.sources[i];
      AccountOf(s, accounts, source);
      if source.account !in accounts || !SourceValid(source, accounts[source.account]) {
        return None;
      }
      if source.provider != s.binding.provider || source.id in m {
        return None;
      }
      m := m[source.id := source];
    }
    assert s.sources[..|s.sources|] == s.sources;
    return Some(m);
  }

  /** `validate_scope_owner`: the scope names an account and a source of the profile that belong together. */
  method CheckOwner(s: State, accounts: map<int, Account>, sources: map<int, Source>, scope: Scope) returns (ok: bool)
    requires AccountsValid(s) && SourcesValid(s)
    requires KeyedBy(accounts, s.accounts, AccountId) && KeyedBy(sources, s.sources, SourceId)
    ensures ok <==> Owned(s, scope)
  {
    hide Distinct, PayloadValid, BoundedText;
    if scope.provider != s.binding.provider || scope.account !in accounts || scope.source !in sources {
      NotOwned(s, accounts, sources, scope);
      return false;
    }
    var account, source := accounts[scope.account], sources[scope.source];
    NotOwned(s, accounts, sources, scope);
    return account.provider == scope.provider && source.account == scope.account && source.provider == scope.provider;
  }

  lemma NotOwned(s: State, accounts: map<int, Account>, sources: map<int, Source>, scope: Scope)
    requires AccountsValid(s) && SourcesValid(s)
    requires KeyedBy(accounts, s.accounts, AccountId) && KeyedBy(sources, s.sources, SourceId)
    ensures Owned(s, scope) <==>
      && scope.provider == s.binding.provider && scope.account in accounts && scope.source in sources
      && accounts[scope.account].provider == scope.provider && sources[scope.source].account == scope.account
      && sources[scope.source].provider == scope.provider
  {
    hide Distinct, PayloadValid, BoundedText;
    if Owned(s, scope) {
      var i :| 0 <= i < |s.sources| && scope == Scope(s.sources[i].provider, s.sources[i].account, s.sources[i].id);
      assert SourceId(s.sources[i]) in sources && sources[SourceId(s.sources[i])] == s.sources[i];
      AccountOf(s, accounts, s.sources[i]);
    } else if scope.source in sources {
      assert sources[scope.source] in s.sources;
    }
  }

  // ----- plans -----

  lemma PlanNamesSnoc(plans: seq<Plan>, i: nat)
    requires i < |plans|
    ensures PlanNames(plans[..i + 1]) == PlanNames(plans[..i]) + Named(plans[i].targets)
  {
    assert plans[..i + 1][..i] == plans[..i];
  }

  lemma {:induction false} PlanNamesGrow(plans: seq<Plan>, i: nat)
    requires i <= |plans|
    ensures PlanNames(plans[..i]) <= PlanNames(plans)
    decreases |plans| - i
  {
    if i == |plans| {
      assert plans[..i] == plans;
    } else {
      PlanNamesSnoc(plans, i);
      PlanNamesGrow(plans, i + 1);
    }
  }

  method CheckPlans(h: Hashes, s: State, accounts: map<int, Account>, sources: map<int, Source>)
    returns (r: Option<(map<int, Plan>, map<int, Resource>)>)
    requires AccountsValid(s) && SourcesValid(s)
    requires KeyedBy(accounts, s.accounts, AccountId) && KeyedBy(sources, s.sources, SourceId)
    ensures r.Some? <==> PlansValid(h, s) && Functional(PlanNames(s.plans))
    ensures r.Some? ==> KeyedBy(r.value.0, s.plans, PlanId) && Holds(r.value.1, PlanNames(s.plans))
  {
    hide KeyedBy, Distinct, Valid, Owned, PlanNames, Named, Holds, Functional, AccountsValid, SourcesValid;
    var plans: map<int, Plan> := map[];
    var resources: map<int, Resource> := map[];
    NoRows(s.plans, PlanId);
    NothingHeld(s);
    for i := 0 to |s.plans|
      invariant KeyedBy(plans, s.plans[..i], PlanId) && Distinct(s.plans[..i], PlanId)
      invariant forall j :: 0 <= j < i ==> Valid(h, s.plans[j]) && Owned(s, s.plans[j].scope)
      invariant Holds(resources, PlanNames(s.plans[..i]))
    {
      Enter(plans, s.plans, i, PlanId);
      PlanNamesSnoc(s.plans, i);
      PlanNamesGrow(s.plans, i + 1);
      FewerNames(PlanNames(s.plans[..i + 1]), PlanNames(s.plans));
      var plan := s.plans[i];
      var buffer := new PlanBuffer(plan);
      var valid := buffer.Validate(h);
      if valid.Err? {
        return None;
      }
      var owned := CheckOwner(s, accounts, sources, plan.scope);
      if !owned || plan.id in plans {
        return None;
      }
      plans := plans[plan.id := plan];
      var entered := EnterResources(resources, plan.targets, PlanNames(s.plans[..i]));
      if entered.None? {
        return None;
      }
      resources := entered.value;
    }
    assert s.plans[..|s.plans|] == s.plans;
    HeldIsFunctional(resources, PlanNames(s.plans));
    return Some((plans, resources));
  }

  lemma NothingHeld(s: State)
    ensures Holds(map[], PlanNames(s.plans[..0])) && JobNames(s.jobs[..0]) == {}
    ensures PlanNames(s.plans) + JobNames(s.jobs[..0]) == PlanNames(s.plans)
  {
  }

  // ----- jobs -----

  method CheckJob(h: Hashes, job: Job, plan: Plan) returns (ok: bool)
    ensures ok <==> JobFits(h, job, plan)
  {
    hide Valid, JobShape, Acceptable, CanonSet;
    var buffer := new PlanBuffer(plan);
    var valid := buffer.Validate(h);
    if valid.Err? || job.planId != plan.id || job.scope != plan.scope {
      return false;
    }
    var dirty := CanonicalTargets(h, job.dirty, job.scope);
    return dirty.Ok? && JobShape(job);
  }

  lemma JobNamesSnoc(jobs: seq<Job>, i: nat)
    requires i < |jobs|
    ensures JobNames(jobs[..i + 1]) == JobNames(jobs[..i]) + Named(jobs[i].dirty)
  {
    assert jobs[..i + 1][..i] == jobs[..i];
  }

  lemma {:induction false} JobNamesGrow(jobs: seq<Job>, i: nat)
    requires i <= |jobs|
    ensures JobNames(jobs[..i]) <= JobNames(jobs)
    decreases |jobs| - i
  {
    if i == |jobs| {
      assert jobs[..i] == jobs;
    } else {
      JobNamesSnoc(jobs, i);
      JobNamesGrow(jobs, i + 1);
    }
  }

  /** The plan of a job is the one with its identity. */
  lemma PlanOf(h: Hashes, s: State, plans: map<int, Plan>, job: Job)
    requires KeyedBy(plans, s.plans, PlanId)
    ensures HasPlan(h, s, job) <==>
      && job.planId in plans && JobFits(h, job, plans[job.planId])
      && job.nextBatch <= BatchCount(plans[job.planId].steps)
  {
    hide Valid, JobShape, Acceptable, CanonSet, BatchCount;
    if HasPlan(h, s, job) {
      var i :| 0 <= i < |s.plans| && JobFits(h, job, s.plans[i]) && job.nextBatch <= BatchCount(s.plans[i].steps);
      assert PlanId(s.plans[i]) in plans;
    }
  }

  method CheckJobs(h: Hashes, s: State, accounts: map<int, Account>, sources: map<int, Source>, plans: map<int, Plan>,
                   known: map<int, Resource>)
    returns (r: Option<set<int>>)
    requires AccountsValid(s) && SourcesValid(s)
    requires KeyedBy(accounts, s.accounts, AccountId) && KeyedBy(sources, s.sources, SourceId)
    requires KeyedBy(plans, s.plans, PlanId) && Holds(known, PlanNames(s.plans))
    ensures r.Some? <==> JobsValid(h, s) && Functional(PlanNames(s.plans) + JobNames(s.jobs))
    ensures r.Some? ==> forall id :: id in r.value <==> exists i :: 0 <= i < |s.jobs| && s.jobs[i].id == id
  {
    hide KeyedBy, Distinct, Valid, Owned, PlanNames, JobNames, Named, Holds, Functional, AccountsValid, SourcesValid,
         HasPlan, JobFits, BatchCount;
    var jobs: map<int, Job> := map[];
    var resources := known;
    NoRows(s.jobs, JobId);
    NothingHeld(s);
    for i := 0 to |s.jobs|
      invariant KeyedBy(jobs, s.jobs[..i], JobId) && Distinct(s.jobs[..i], JobId)
      invariant forall j :: 0 <= j < i ==> HasPlan(h, s, s.jobs[j]) && Owned(s, s.jobs[j].scope)
      invariant Holds(resources, PlanNames(s.plans) + JobNames(s.jobs[..i]))
    {
      Enter(jobs, s.jobs, i, JobId);
      JobNamesSnoc(s.jobs, i);
      JobNamesGrow(s.jobs, i + 1);
      FewerNames(PlanNames(s.plans) + JobNames(s.jobs[..i + 1]), PlanNames(s.plans) + JobNames(s.jobs));
      var job := s.jobs[i];
      PlanOf(h, s, plans, job);
      if job.planId !in plans {
        return None;
      }
      var fits := CheckJob(h, job, plans[job.planId]);
      if !fits {
        return None;
      }
      var owned := CheckOwner(s, accounts, sources, job.scope);
      if !owned || job.id in jobs || job.nextBatch > BatchCount(plans[job.planId].steps) {
        return None;
      }
      jobs := jobs[job.id := job];
      ghost var names := PlanNames(s.plans) + JobNames(s.jobs[..i]);
      assert names + Named(job.dirty) == PlanNames(s.plans) + JobNames(s.jobs[..i + 1]);
      var entered := EnterResources(resources, job.dirty, names);
      if entered.None? {
        return None;
      }
      resources := entered.value;
    }
    assert s.jobs[..|s.jobs|] == s.jobs;
    HeldIsFunctional(resources, PlanNames(s.plans) + JobNames(s.jobs));
    JobIds(jobs, s);
    return Some(jobs.Keys);
  }

  lemma JobIds(jobs: map<int, Job>, s: State)
    requires KeyedBy(jobs, s.jobs, JobId)
    ensures forall id :: id in jobs.Keys <==> exists i :: 0 <= i < |s.jobs| && s.jobs[i].id == id
  {
    forall id | id in jobs ensures exists i :: 0 <= i < |s.jobs| && s.jobs[i].id == id {
      assert jobs[id] in s.jobs && JobId(jobs[id]) == id;
    }
    forall i | 0 <= i < |s.jobs| ensures s.jobs[i].id in jobs {
      assert JobId(s.jobs[i]) in jobs;
    }
  }

  // ----- the whole state -----

  method CheckHistory(s: State, jobIds: set<int>) returns (ok: bool)
    requires forall id :: id in jobIds <==> exists i :: 0 <= i < |s.jobs| && s.jobs[i].id == id
    ensures ok <==> HistoryValid(s)
  {
    hide KeyedBy, Distinct, EntryValid, Sha256Text;
    var seen: map<int, LegacyEntry> := map[];
    NoRows(s.history, EntryId);
    for i := 0 to |s.history|
      invariant KeyedBy(seen, s.history[..i], EntryId) && Distinct(s.history[..i], EntryId)
      invariant forall j :: 0 <= j < i ==> EntryValid(s.history[j]) && s.history[j].id !in jobIds
    {
      Enter(seen, s.history, i, EntryId);
      var entry := s.history[i];
      if !EntryValid(entry) || entry.id in seen || entry.id in jobIds {
        return false;
      }
      seen := seen[entry.id := entry];
    }
    assert s.history[..|s.history|] == s.history;
    if s.history != [] && s.migration.None? {
      return false;
    }
    return s.migration.Some? ==> s.migration.value.sourceBytes != 0 && Sha256Text(s.migration.value.sourceSha256);
  }

  method Validate(h: Hashes, binding: StoreBinding, s: State) returns (ok: bool)
    ensures ok <==> StateValid(h, binding, s)
  {
    hide AccountsValid, SourcesValid, PlansValid, JobsValid, HistoryValid, Functional, PlanNames, JobNames, KeyedBy,
         Holds, BindingValid;
    if !BindingValid(binding) || s.schemaVersion != SCHEMA_VERSION || s.binding != binding {
      return false;
    }
    var accounts := CheckAccounts(s);
    if accounts.None? {
      return false;
    }
    var sources := CheckSources(s, accounts.value);
    if sources.None? {
      return false;
    }
    FewerNames(PlanNames(s.plans), PlanNames(s.plans) + JobNames(s.jobs));
    var plans := CheckPlans(h, s, accounts.value, sources.value);
    if plans.None? {
      return false;
    }
    var jobIds := CheckJobs(h, s, accounts.value, sources.value, plans.value.0, plans.value.1);
    if jobIds.None? {
      return false;
    }
    ok := CheckHistory(s, jobIds.value);
  }
}
