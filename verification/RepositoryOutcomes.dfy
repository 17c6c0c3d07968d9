/** When a commit and the opening of a repository succeed, exactly, and what they leave in the active file. */
module RepositoryOutcomes {
  import opened FoundationState
  import Store = FoundationStore
  import opened Options
  import opened RemediationPlan
  import opened Repository
  import opened RepositoryRuns
  import opened Sorting

  // ----- what a commit may do to the rows -----

  /** The job got no smaller, and did not come back after its end. */
  predicate NoStepBack(earlier: Job, job: Job)
  {
    && earlier.nextBatch <= job.nextBatch && earlier.updatedAt <= job.updatedAt
    && earlier.counters.deleted <= job.counters.deleted && earlier.counters.skipped <= job.counters.skipped
    && earlier.counters.failed <= job.counters.failed && earlier.counters.uncertain <= job.counters.uncertain
    && (earlier.status in {Completed, Partial, Failed, Cancelled} ==>
      job.status in {Completed, Partial, Failed, Cancelled})
  }

  /** No plan is missing or changed, no job is missing, and none steps back. */
  ghost predicate NothingLost(known: Projection, plans: seq<Plan>, jobs: seq<Job>)
  {
    && (forall p :: p in known.plans ==> p in plans)
    && (forall before :: before in known.jobs ==> exists job :: job in jobs && job.id == before.id)
    && (forall before, job :: before in known.jobs && job in jobs && job.id == before.id ==> NoStepBack(before, job))
  }

  ghost predicate OneRowEach(jobs: seq<Job>)
  {
    forall x, y :: x in jobs && y in jobs && x.id == y.id ==> x == y
  }

  /** The comparison with the known rows, on the sorted ones, asks for exactly that. */
  lemma ContinuesMeans(known: Projection, plans: seq<Plan>, jobs: seq<Job>)
    requires OneRowEach(known.jobs)
    ensures Continues(known, SortedPlans(plans), SortedJobs(jobs)) <==> NothingLost(known, plans, jobs)
  {
    hide SortBy, Find, Advances, NoStepBack;
    forall p ensures p in SortedPlans(plans) <==> p in plans { SortMembers(plans, PlanId, p); }
    forall job ensures job in SortedJobs(jobs) <==> job in jobs { SortMembers(jobs, JobId, job); }
    forall before, job ensures Advances(before, job) <==> NoStepBack(before, job) { AdvancesMeans(before, job); }
    UnsortedContinues(known, SortedPlans(plans), SortedJobs(jobs));
  }

  lemma AdvancesMeans(before: Job, job: Job)
    ensures Advances(before, job) <==> NoStepBack(before, job)
  {
  }

  lemma UnsortedContinues(known: Projection, plans: seq<Plan>, jobs: seq<Job>)
    requires OneRowEach(known.jobs)
    ensures Continues(known, plans, jobs) <==>
      && (forall p :: p in known.plans ==> p in plans)
      && (forall before :: before in known.jobs ==> exists job :: job in jobs && job.id == before.id)
      && (forall before, job :: before in known.jobs && job in jobs && job.id == before.id ==> Advances(before, job))
  {
    hide Find, Advances;
    forall before | before in known.jobs
      ensures Find(jobs, before.id).Some? <==> exists job :: job in jobs && job.id == before.id
    {
      FindMeans(jobs, before.id);
    }
    forall before, job | before in known.jobs && job in jobs && job.id == before.id
      ensures Find(known.jobs, job.id) == Some(before)
    {
      FindMeans(known.jobs, job.id);
    }
    forall job | job in jobs && Find(known.jobs, job.id).Some?
      ensures Find(known.jobs, job.id).value in known.jobs && Find(known.jobs, job.id).value.id == job.id
    {
      FindMeans(known.jobs, job.id);
    }
  }

  // ----- commits -----

  /** The state with these rows for the scope and all others as they were. */
  ghost predicate Recommitted(before: State, after: State, scope: Scope, plans: seq<Plan>, jobs: seq<Job>)
  {
    && after == before.(plans := after.plans, jobs := after.jobs)
    && (forall p :: p in after.plans <==> if p.scope == scope then p in plans else p in before.plans)
    && (forall job :: job in after.jobs <==> if job.scope == scope then job in jobs else job in before.jobs)
  }

  lemma ReplaceMeans(s: State, scope: Scope, known: Projection, plans: seq<Plan>, jobs: seq<Job>)
    requires OwnRows(plans, jobs, scope)
    ensures var after := Replace(s, scope, known, SortedPlans(plans), SortedJobs(jobs));
      && (after.Some? <==> Project(s, scope) == known)
      && (after.Some? ==> Recommitted(s, after.value, scope, plans, jobs))
  {
    hide SortBy, Keep, Project;
    forall p ensures p in SortedPlans(plans) <==> p in plans { SortMembers(plans, PlanId, p); }
    forall job ensures job in SortedJobs(jobs) <==> job in jobs { SortMembers(jobs, JobId, job); }
    forall p ensures p in Keep(s.plans, PlanOutside(scope)) <==> p in s.plans && p.scope != scope {
      KeepMembers(s.plans, PlanOutside(scope), p);
    }
    forall job ensures job in Keep(s.jobs, JobOutside(scope)) <==> job in s.jobs && job.scope != scope {
      KeepMembers(s.jobs, JobOutside(scope), job);
    }
  }

  /** In every run of the store a commit that lost nothing succeeds exactly if its scope still has the rows that the
      repository knew, the state can be read where that is needed, and the faults let the new one replace it and be
      synced; the active file then holds the new rows of the scope, and in every other case but the failed sync it
      is as it was. */
  lemma CommitSucceedsExactly(rules: Store.Rules<State, Provenance>, origin: Store.Slot<State>, w: Store.World<State>,
                              scope: Scope, known: Projection, plans: seq<Plan>, jobs: seq<Job>, readFails: bool,
                              faults: Store.Faults<State>)
    requires Store.Reachable(rules, origin, w) && w.runtime.Some?
    requires forall s :: rules.provenance(s) == (s.migration, s.history)
    requires OwnRows(plans, jobs, scope)
    ensures w.disk.active.Some? && w.disk.active.value.V3?
    ensures var change := Replacing(scope, known, SortedPlans(plans), SortedJobs(jobs));
      var (disk, runtime, ok) := Store.Transaction(rules, w.disk, w.runtime.value, change, readFails, faults);
      var before := w.disk.active.value.state;
      if Project(before, scope) == known && !(w.runtime.value.reloadRequired && readFails) then
        exists after ::
          && Recommitted(before, after, scope, plans, jobs)
          && (ok <==> Store.Replaces(rules, after, faults) && !faults.syncFails)
          && disk.active == (if Store.Replaces(rules, after, faults) then Some(Store.V3(after)) else w.disk.active)
      else !ok && disk.active == w.disk.active
  {
    hide Store.Transaction, Store.Run, Store.Replaces, Project, OwnRows, Replace, SortedPlans, SortedJobs, Recommitted;
    var change := Replacing(scope, known, SortedPlans(plans), SortedJobs(jobs));
    Store.TransactionSucceedsExactly(rules, origin, w, change, readFails, faults);
    var before := w.disk.active.value.state;
    ReplaceMeans(before, scope, known, plans, jobs);
    if change(before).Some? {
      var after := change(before).value;
      assert rules.provenance(after) ==
        rules.provenance(before) by { RecommittedKeeps(before, after, scope, plans, jobs); }
      assert Recommitted(before, after, scope, plans, jobs);
    }
  }

  lemma RecommittedKeeps(before: State, after: State, scope: Scope, plans: seq<Plan>, jobs: seq<Job>)
    requires Recommitted(before, after, scope, plans, jobs)
    ensures after.migration == before.migration && after.history == before.history
  {
  }

  /** The same, as an action among those of other repositories: the rows are committed exactly if nothing is lost by
      it, they were known, validation accepts them and the write is not lost; they are known from then on exactly if
      the commit was acknowledged. */
  lemma NextCommits(accepts: State -> bool, w: World, r: nat, plans: seq<Plan>, jobs: seq<Job>, outcome: Outcome)
    returns (next: State)
    requires r < |w.repos| && w.repos[r].last.Some? && OneRowEach(w.repos[r].last.value.jobs)
    requires OwnRows(plans, jobs, w.repos[r].scope)
    ensures var scope, known := w.repos[r].scope, w.repos[r].last.value;
      var after := Next(accepts, w, CommitRows(r, plans, jobs, outcome));
      var committed := NothingLost(known, plans, jobs) && Project(w.state, scope) == known && accepts(next);
      && (Project(w.state, scope) == known ==> Recommitted(w.state, next, scope, plans, jobs))
      && after.state == (if committed && outcome != Lost then next else w.state)
      && after.repos ==
        (if committed && outcome == Acknowledged then w.repos[r := Repo(scope, Some(Project(next, scope)))]
                         else w.repos)
  {
    hide Project, Replace, Continues, NothingLost, Recommitted, SortedPlans, SortedJobs, OwnRows, OneRowEach;
    var scope, known := w.repos[r].scope, w.repos[r].last.value;
    ContinuesMeans(known, plans, jobs);
    ReplaceMeans(w.state, scope, known, plans, jobs);
    SortedOwnRows(plans, jobs, scope);
    CommitProjects(w.state, scope, known, SortedPlans(plans), SortedJobs(jobs));
    var replaced := Replace(w.state, scope, known, SortedPlans(plans), SortedJobs(jobs));
    next := if replaced.Some? then replaced.value else w.state;
  }

  /** The other actions: a repository starts without known rows, the first rows it loads are the known ones, and
      blocking touches the jobs of other scopes only. */
  lemma NextOtherwise(accepts: State -> bool, w: World, scope: Scope, r: nat, outcome: Outcome)
    ensures Next(accepts, w, NewRepo(scope)) == World(w.state, w.repos + [Repo(scope, None)])
    ensures r < |w.repos| ==>
      var after := Next(accepts, w, LoadRows(r));
      && after.state == w.state && |after.repos| == |w.repos|
      && (forall i | 0 <= i < |w.repos| && i != r :: after.repos[i] == w.repos[i])
      && after.repos[r].scope == w.repos[r].scope
      && after.repos[r].last ==
           (if w.repos[r].last.Some? then w.repos[r].last else Some(Project(w.state, w.repos[r].scope)))
    ensures var after := Next(accepts, w, BlockOthers(scope, outcome)); var blocked := BlockForeign(w.state, scope);
      after.repos == w.repos
      && after.state == (if accepts(blocked) && outcome != Lost then blocked else w.state)
  {
    hide Project, BlockForeign;
  }

  // ----- opening a repository -----

  predicate Gives(source: Source, scope: Scope)
  {
    source.provider == scope.provider && source.account == scope.account && source.id == scope.source
  }

  /** A repository is opened only for the scope of a source of the profile. */
  lemma HasSourceMeans(s: State, scope: Scope)
    ensures HasSource(s, scope) <==> exists source :: source in s.sources && Gives(source, scope)
  {
    if HasSource(s, scope) {
      var i :| 0 <= i < |s.sources|
        && Scope(s.sources[i].provider, s.sources[i].account, s.sources[i].id) == scope;
      assert s.sources[i] in s.sources && Gives(s.sources[i], scope);
    }
    if source :| source in s.sources && Gives(source, scope) {
      var i :| 0 <= i < |s.sources| && s.sources[i] == source;
    }
  }

  /** No job of another scope can go on by itself. */
  ghost predicate OthersAtRest(s: State, scope: Scope)
  {
    forall job :: job in s.jobs && job.scope != scope ==>
      job.status in {Completed, Partial, Failed, Cancelled, Blocked}
  }

  lemma NeedsBlockingMeans(s: State, scope: Scope)
    ensures NeedsBlocking(s, scope) <==> !OthersAtRest(s, scope)
  {
    if job :| job in s.jobs && job.scope != scope && job.status !in {Completed, Partial, Failed, Cancelled, Blocked} {
      var i :| 0 <= i < |s.jobs| && s.jobs[i] == job;
      assert Blockable(s.jobs[i], scope);
    }
  }

  lemma BlockedRest(s: State, scope: Scope)
    ensures OthersAtRest(BlockForeign(s, scope), scope)
    ensures BlockForeign(s, scope) == s.(jobs := BlockForeign(s, scope).jobs)
  {
    var after := BlockForeign(s, scope);
    forall job | job in after.jobs && job.scope != scope
      ensures job.status in {Completed, Partial, Failed, Cancelled, Blocked}
    {
      var i :| 0 <= i < |after.jobs| && after.jobs[i] == job;
      BlockingOutcome(s, scope, i);
    }
  }

  /** In every run of the store blocking succeeds exactly if the state can be read where that is needed and all jobs
      of other scopes rest already, or else the faults let their blocking replace the state and be synced. Either
      way they rest in the active file once it has succeeded. */
  lemma BlockingSucceedsExactly(rules: Store.Rules<State, Provenance>, origin: Store.Slot<State>,
                                w: Store.World<State>, scope: Scope, snapshotFails: bool, readFails: bool,
                                faults: Store.Faults<State>)
    requires Store.Reachable(rules, origin, w) && w.runtime.Some?
    requires forall s :: rules.provenance(s) == (s.migration, s.history)
    ensures w.disk.active.Some? && w.disk.active.value.V3?
    ensures var (disk, runtime, ok) :=
        BlockOutcome(rules, w.disk, w.runtime.value, scope, snapshotFails, readFails, faults);
      var before := w.disk.active.value.state; var blocked := BlockForeign(before, scope);
      var written := !OthersAtRest(before, scope) && Store.Replaces(rules, blocked, faults);
      if w.runtime.value.reloadRequired && snapshotFails then !ok && disk == w.disk
      else
        && (ok <==> OthersAtRest(before, scope) || (written && !faults.syncFails))
        && disk.active == (if written then Some(Store.V3(blocked)) else w.disk.active)
        && (ok ==> disk.active.Some? && disk.active.value.V3? && OthersAtRest(disk.active.value.state, scope))
  {
    hide Store.Transaction, Store.Run, Store.Replaces, NeedsBlocking, OthersAtRest, BlockForeign;
    Store.ReachableKeeps(rules, origin, w);
    var before := w.disk.active.value.state;
    NeedsBlockingMeans(before, scope);
    BlockedRest(before, scope);
    var seen := Store.Snapshot(rules, w.disk, w.runtime.value, snapshotFails).0;
    if !(w.runtime.value.reloadRequired && snapshotFails) {
      var next := Store.World(w.disk, Some(seen));
      assert next == Store.Step(rules, w, Store.TakeSnapshot(snapshotFails));
      ReachableStep(rules, origin, w, Store.TakeSnapshot(snapshotFails));
      Store.TransactionSucceedsExactly(rules, origin, next, Blocking(scope), readFails, faults);
    }
  }

  lemma ReachableStep(rules: Store.Rules<State, Provenance>, origin: Store.Slot<State>, w: Store.World<State>,
                      op: Store.Operation<State>)
    requires Store.Reachable(rules, origin, w)
    ensures Store.Reachable(rules, origin, Store.Step(rules, w, op))
  {
    hide Store.Step;
    var candidate, backup, ops :| w == Store.Run(rules, Store.Initial(origin, candidate, backup), ops);
    assert (ops + [op])[..|ops|] == ops;
    assert Store.Step(rules, w, op) == Store.Run(rules, Store.Initial(origin, candidate, backup), ops + [op]);
  }
}
