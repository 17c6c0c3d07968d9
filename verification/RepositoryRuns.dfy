/** What every interleaving of commits and blocking keeps, for repositories of any scopes on one store. */
module RepositoryRuns {
  import opened FoundationState
  import Store = FoundationStore
  import opened Options
  import opened RemediationPlan
  import opened Repository
  import opened Sealing
  import opened Sorting

  // ----- blocking is always valid -----

  lemma StopKeepsShape(h: Hashes, job: Job, plan: Plan, scope: Scope)
    requires JobFits(h, job, plan)
    ensures Blockable(job, scope) ==> JobFits(h, Stop(job), plan)
  {
    hide Valid, Acceptable, CanonSet;
    if Blockable(job, scope) {
      var d := Stop(job).diagnostics;
      assert d[|d| - 1] == AmbiguousOutcome || Explains(d[|d| - 1]);
    }
  }

  lemma {:induction false} BlockedNames(jobs: seq<Job>, scope: Scope)
    ensures JobNames(BlockedJobs(jobs, scope)) == JobNames(jobs)
  {
    hide Named;
    if |jobs| > 0 {
      var r := BlockedJobs(jobs, scope);
      BlockedNames(jobs[..|jobs| - 1], scope);
      assert r[..|r| - 1] == BlockedJobs(jobs[..|jobs| - 1], scope);
    }
  }

  /** The job of a blocked state still has its plan. */
  lemma BlockedHasPlan(h: Hashes, s: State, scope: Scope, i: nat)
    requires i < |s.jobs| && HasPlan(h, s, s.jobs[i]) && Owned(s, s.jobs[i].scope)
    ensures var after := BlockForeign(s, scope);
      HasPlan(h, after, after.jobs[i]) && Owned(after, after.jobs[i].scope) && after.jobs[i].id == s.jobs[i].id
  {
    hide JobFits, BatchCount, Stop, Blockable;
    var job, after := s.jobs[i], BlockForeign(s, scope);
    var p :| 0 <= p < |s.plans| && JobFits(h, job, s.plans[p]) && job.nextBatch <= BatchCount(s.plans[p].steps);
    StopKeepsShape(h, job, s.plans[p], scope);
    StopKeepsIdentity(job);
    assert JobFits(h, after.jobs[i], after.plans[p]);
    assert after.jobs[i].scope == job.scope;
  }

  lemma BlockedJobsValid(h: Hashes, s: State, scope: Scope)
    requires JobsValid(h, s)
    ensures JobsValid(h, BlockForeign(s, scope))
    ensures HistoryValid(s) ==> HistoryValid(BlockForeign(s, scope))
  {
    hide HasPlan, Owned, Stop, Blockable, EntryValid, Sha256Text;
    var after := BlockForeign(s, scope);
    forall i | 0 <= i < |after.jobs|
      ensures HasPlan(h, after, after.jobs[i]) && Owned(after, after.jobs[i].scope) && after.jobs[i].id == s.jobs[i].id
    {
      BlockedHasPlan(h, s, scope, i);
    }
    forall i, j | 0 <= i < j < |after.jobs| ensures JobId(after.jobs[i]) != JobId(after.jobs[j]) {
      assert JobId(s.jobs[i]) != JobId(s.jobs[j]);
    }
  }

  /** The neutral validation never refuses the blocking transaction. */
  lemma BlockingKeepsValid(h: Hashes, binding: StoreBinding, s: State, scope: Scope)
    requires StateValid(h, binding, s)
    ensures StateValid(h, binding, BlockForeign(s, scope))
  {
    hide JobsValid, HistoryValid, Valid, AccountValid, SourceValid, PlanNames, JobNames, Functional, Distinct,
         BindingValid;
    BlockedNames(s.jobs, scope);
    BlockedJobsValid(h, s, scope);
  }

  lemma StopKeepsIdentity(job: Job)
    ensures Stop(job).id == job.id && Stop(job).scope == job.scope && Stop(job).nextBatch == job.nextBatch
  {
  }

  // ----- nothing goes back -----

  /** Plans stay, and every job goes on under its identity in its scope. */
  ghost predicate Evolves(before: State, after: State)
  {
    && (forall p :: p in before.plans ==> p in after.plans)
    && forall j :: j in before.jobs ==> GoesOn(j, after)
  }

  ghost predicate GoesOn(job: Job, after: State)
  {
    exists k :: k in after.jobs && k.id == job.id && k.scope == job.scope && Advances(job, k)
  }

  lemma EvolvesTransitive(a: State, b: State, c: State)
    requires Evolves(a, b) && Evolves(b, c)
    ensures Evolves(a, c)
  {
    forall j | j in a.jobs ensures GoesOn(j, c) {
      assert GoesOn(j, b);
      var k :| k in b.jobs && k.id == j.id && k.scope == j.scope && Advances(j, k);
      assert GoesOn(k, c);
    }
  }

  lemma BlockingEvolves(s: State, scope: Scope)
    ensures Evolves(s, BlockForeign(s, scope))
  {
    var after := BlockForeign(s, scope);
    forall j | j in s.jobs ensures GoesOn(j, after) {
      var i :| 0 <= i < |s.jobs| && s.jobs[i] == j;
      assert after.jobs[i] in after.jobs;
    }
  }

  lemma ProjectedPlan(s: State, scope: Scope, p: Plan)
    ensures p in Project(s, scope).plans <==> p in s.plans && p.scope == scope
  {
    SortMembers(Keep(s.plans, PlanIn(scope)), PlanId, p);
    KeepMembers(s.plans, PlanIn(scope), p);
  }

  lemma ProjectedJob(s: State, scope: Scope, j: Job)
    ensures j in Project(s, scope).jobs <==> j in s.jobs && j.scope == scope
  {
    SortMembers(Keep(s.jobs, JobIn(scope)), JobId, j);
    KeepMembers(s.jobs, JobIn(scope), j);
  }

  lemma {:induction false} FindMeans(jobs: seq<Job>, id: int)
    ensures Find(jobs, id).Some? ==> Find(jobs, id).value in jobs && Find(jobs, id).value.id == id
    ensures forall j :: j in jobs && j.id == id ==> Find(jobs, id).Some?
  {
    if |jobs| > 0 {
      FindMeans(jobs[1..], id);
      assert jobs == [jobs[0]] + jobs[1..];
    }
  }

  ghost predicate DistinctJobs(s: State)
  {
    forall x, y :: x in s.jobs && y in s.jobs && x.id == y.id ==> x == y
  }

  lemma ValidDistinct(h: Hashes, binding: StoreBinding, s: State)
    requires StateValid(h, binding, s)
    ensures DistinctJobs(s)
  {
    hide AccountsValid, SourcesValid, PlansValid, HistoryValid, HasPlan, Functional, BindingValid, PlanNames,
         JobNames, Owned;
    forall x, y | x in s.jobs && y in s.jobs && x.id == y.id ensures x == y {
      var i :| 0 <= i < |s.jobs| && s.jobs[i] == x;
      var j :| 0 <= j < |s.jobs| && s.jobs[j] == y;
      assert JobId(s.jobs[i]) == JobId(s.jobs[j]);
    }
  }

  /** The new form of a job of the scope. */
  lemma CommitContinues(s: State, scope: Scope, expected: Projection, plans: seq<Plan>, jobs: seq<Job>, job: Job)
    requires DistinctJobs(s) && Project(s, scope) == expected && Continues(expected, plans, jobs)
    requires OwnRows(plans, jobs, scope) && job in s.jobs && job.scope == scope
    ensures exists k :: k in jobs && k.id == job.id && k.scope == scope && Advances(job, k)
  {
    hide Advances, Project;
    ProjectedJob(s, scope, job);
    var i :| 0 <= i < |expected.jobs| && expected.jobs[i] == job;
    FindMeans(jobs, job.id);
    var k := Find(jobs, job.id).value;
    var m :| 0 <= m < |jobs| && jobs[m] == k;
    FindMeans(expected.jobs, job.id);
    var before := Find(expected.jobs, job.id).value;
    ProjectedJob(s, scope, before);
    assert before == job && Advances(job, k);
  }

  /** A commit adds plans, takes jobs further, and leaves the rows of other scopes alone. */
  lemma CommitEvolves(s: State, scope: Scope, expected: Projection, plans: seq<Plan>, jobs: seq<Job>)
    requires DistinctJobs(s) && Continues(expected, plans, jobs) && OwnRows(plans, jobs, scope)
    ensures var after := Replace(s, scope, expected, plans, jobs);
      after.Some? ==>
        && Evolves(s, after.value)
        && Keep(after.value.plans, PlanOutside(scope)) == Keep(s.plans, PlanOutside(scope))
        && Keep(after.value.jobs, JobOutside(scope)) == Keep(s.jobs, JobOutside(scope))
  {
    hide Continues, Project, Advances, SortedPlans, SortedJobs;
    var replaced := Replace(s, scope, expected, plans, jobs);
    if replaced.Some? {
      var after := replaced.value;
      forall p | p in s.plans ensures p in after.plans {
        CommitKeepsPlan(s, scope, expected, plans, jobs, p);
      }
      forall j | j in s.jobs ensures GoesOn(j, after) {
        if j.scope == scope {
          CommitContinues(s, scope, expected, plans, jobs, j);
        } else {
          KeepMembers(s.jobs, JobOutside(scope), j);
          AdvancesItself(j);
        }
      }
      CommitFrames(s, scope, plans, jobs);
    }
  }

  /** Afterwards the rows of the scope are the committed ones. */
  lemma CommitProjects(s: State, scope: Scope, expected: Projection, plans: seq<Plan>, jobs: seq<Job>)
    requires OwnRows(plans, jobs, scope)
    ensures var after := Replace(s, scope, expected, plans, jobs);
      after.Some? ==> Project(after.value, scope) == Projection(SortedPlans(plans), SortedJobs(jobs))
  {
    hide Keep, SortBy, OwnRows;
    CommitFrames(s, scope, plans, jobs);
  }

  lemma AdvancesItself(job: Job)
    ensures Advances(job, job)
  {
  }

  lemma CommitKeepsPlan(s: State, scope: Scope, expected: Projection, plans: seq<Plan>, jobs: seq<Job>, p: Plan)
    requires Project(s, scope) == expected && Continues(expected, plans, jobs) && p in s.plans
    ensures p in Keep(s.plans, PlanOutside(scope)) + plans
  {
    hide Project, Advances, Keep;
    if p.scope == scope {
      ProjectedPlan(s, scope, p);
    } else {
      KeepMembers(s.plans, PlanOutside(scope), p);
    }
  }

  lemma CommitFrames(s: State, scope: Scope, plans: seq<Plan>, jobs: seq<Job>)
    requires OwnRows(plans, jobs, scope)
    ensures var othersPlans, othersJobs := Keep(s.plans, PlanOutside(scope)), Keep(s.jobs, JobOutside(scope));
      && Keep(othersPlans + plans, PlanOutside(scope)) == othersPlans
      && Keep(othersJobs + jobs, JobOutside(scope)) == othersJobs
      && Keep(othersPlans + plans, PlanIn(scope)) == plans
      && Keep(othersJobs + jobs, JobIn(scope)) == jobs
  {
    hide Keep;
    var p, j := Keep(s.plans, PlanOutside(scope)), Keep(s.jobs, JobOutside(scope));
    forall x ensures x in p <==> x in s.plans && PlanOutside(scope)(x) {
      KeepMembers(s.plans, PlanOutside(scope), x);
    }
    forall x ensures x in j <==> x in s.jobs && JobOutside(scope)(x) {
      KeepMembers(s.jobs, JobOutside(scope), x);
    }
    KeepAppend(p, plans, PlanOutside(scope));
    KeepAppend(j, jobs, JobOutside(scope));
    KeepAppend(p, plans, PlanIn(scope));
    KeepAppend(j, jobs, JobIn(scope));
    KeepAll(p, PlanOutside(scope));
    KeepAll(j, JobOutside(scope));
    KeepNone(p, PlanIn(scope));
    KeepNone(j, JobIn(scope));
    KeepNone(plans, PlanOutside(scope));
    KeepNone(jobs, JobOutside(scope));
    KeepAll(plans, PlanIn(scope));
    KeepAll(jobs, JobIn(scope));
  }

  // ----- runs -----

  /** A repository as far as commits look at it. */
  datatype Repo = Repo(scope: Scope, last: Option<Projection>)

  datatype World = World(state: State, repos: seq<Repo>)

  /** What becomes of a transaction that passes its own checks: the rename does not happen, or it happens but
      an error is returned all the same, or it succeeds. */
  datatype Outcome = Lost | Published | Acknowledged

  /** The steps that can interleave. The transaction of a blocking follows an earlier look at the state, so it can
      come when there is nothing left to block. */
  datatype Action =
    | NewRepo(scope: Scope)
    | LoadRows(repo: nat)
    | CommitRows(repo: nat, plans: seq<Plan>, jobs: seq<Job>, outcome: Outcome)
    | BlockOthers(scope: Scope, outcome: Outcome)

  /** A changed state reaches the store if validation accepts it and its rename happens. */
  function Publish(accepts: State -> bool, s: State, changed: Option<State>, outcome: Outcome): State
  {
    if changed.Some? && accepts(changed.value) && outcome != Lost then changed.value else s
  }

  /** A transaction of the store, whatever its faults, is one of the three outcomes. */
  lemma TransactionIsPublication(rules: Store.Rules<State, Provenance>, origin: Store.Slot<State>,
                                 w: Store.World<State>, change: State -> Option<State>, readFails: bool,
                                   faults: Store.Faults<State>)
    requires Store.Reachable(rules, origin, w) && w.runtime.Some?
    requires forall s :: change(s).Some? ==> rules.provenance(change(s).value) == rules.provenance(s)
    ensures w.disk.active.Some? && w.disk.active.value.V3?
    ensures var (disk, runtime, ok) := Store.Transaction(rules, w.disk, w.runtime.value, change, readFails, faults);
      var before := w.disk.active.value.state;
      exists outcome ::
        && disk.active == Some(Store.V3(Publish(rules.accepts, before, change(before), outcome)))
        && (ok <==> change(before).Some? && rules.accepts(change(before).value) && outcome == Acknowledged)
  {
    hide Store.Run, Store.Save;
    Store.ReachableKeeps(rules, origin, w);
    var before := w.disk.active.value.state;
    var (disk, runtime, ok) := Store.Transaction(rules, w.disk, w.runtime.value, change, readFails, faults);
    if change(before).Some? {
      Store.SaveMeans(rules, w.disk, change(before).value, faults);
    }
    var outcome := if ok then Acknowledged else if disk.active == w.disk.active then Lost else Published;
    assert disk.active == Some(Store.V3(Publish(rules.accepts, before, change(before), outcome)));
  }

  /** The two changes that repositories make. */
  datatype Edit = Blocks(scope: Scope) | Replaces(scope: Scope, expected: Projection, plans: seq<Plan>, jobs: seq<Job>)

  function ChangeOf(edit: Edit): State -> Option<State>
  {
    match edit
    case Blocks(scope) => Blocking(scope)
    case Replaces(scope, expected, plans, jobs) => Replacing(scope, expected, plans, jobs)
  }

  /** In every run of the store, neither change is refused for the provenance it leaves, so each transaction of a
      repository is one of the three outcomes. */
  lemma RepositoryPublishes(rules: Store.Rules<State, Provenance>, origin: Store.Slot<State>, w: Store.World<State>,
                            edit: Edit, readFails: bool, faults: Store.Faults<State>)
    requires Store.Reachable(rules, origin, w) && w.runtime.Some?
    requires forall s :: rules.provenance(s) == (s.migration, s.history)
    ensures w.disk.active.Some? && w.disk.active.value.V3?
    ensures var change := ChangeOf(edit);
      var (disk, runtime, ok) := Store.Transaction(rules, w.disk, w.runtime.value, change, readFails, faults);
      var before := w.disk.active.value.state;
      exists outcome ::
        && disk.active == Some(Store.V3(Publish(rules.accepts, before, change(before), outcome)))
        && (ok <==> change(before).Some? && rules.accepts(change(before).value) && outcome == Acknowledged)
  {
    hide Store.Run, Store.Transaction, Publish, BlockedJobs, Project, Keep;
    TransactionIsPublication(rules, origin, w, ChangeOf(edit), readFails, faults);
  }

  function Next(accepts: State -> bool, w: World, action: Action): World
  {
    match action
    case NewRepo(scope) => w.(repos := w.repos + [Repo(scope, None)])
    case LoadRows(r) =>
      if r < |w.repos| && w.repos[r].last.None?
      then w.(repos := w.repos[r := w.repos[r].(last := Some(Project(w.state, w.repos[r].scope)))])
      else w
    case CommitRows(r, plans, jobs, outcome) =>
      if r >= |w.repos| || w.repos[r].last.None?
         || !Continues(w.repos[r].last.value, SortedPlans(plans), SortedJobs(jobs))
      then w
      else
        var repo := w.repos[r];
        var changed := Replace(w.state, repo.scope, repo.last.value, SortedPlans(plans), SortedJobs(jobs));
        World(Publish(accepts, w.state, changed, outcome),
          if changed.Some? && accepts(changed.value) && outcome == Acknowledged
          then w.repos[r := repo.(last := Some(Projection(SortedPlans(plans), SortedJobs(jobs))))]
          else w.repos)
    case BlockOthers(scope, outcome) =>
      w.(state := Publish(accepts, w.state, Some(BlockForeign(w.state, scope)), outcome))
  }

  /** Callers commit rows of their own scope. */
  ghost predicate Proper(w: World, action: Action)
  {
    action.CommitRows? && action.repo < |w.repos| ==> OwnRows(action.plans, action.jobs, w.repos[action.repo].scope)
  }

  function Run(accepts: State -> bool, start: World, actions: seq<Action>): World
  {
    if |actions| == 0 then start
    else Next(accepts, Run(accepts, start, actions[..|actions| - 1]), actions[|actions| - 1])
  }

  ghost predicate AllProper(accepts: State -> bool, start: World, actions: seq<Action>)
  {
    |actions| > 0 ==>
      var before := actions[..|actions| - 1];
      AllProper(accepts, start, before) && Proper(Run(accepts, start, before), actions[|actions| - 1])
  }

  /** The validation of the store includes the neutral one. */
  ghost predicate Neutral(accepts: State -> bool, h: Hashes, binding: StoreBinding)
  {
    forall s :: accepts(s) ==> StateValid(h, binding, s)
  }

  lemma SortedOwnRows(plans: seq<Plan>, jobs: seq<Job>, scope: Scope)
    requires OwnRows(plans, jobs, scope)
    ensures OwnRows(SortedPlans(plans), SortedJobs(jobs), scope)
    ensures SortedPlans(SortedPlans(plans)) == SortedPlans(plans) && SortedJobs(SortedJobs(jobs)) == SortedJobs(jobs)
  {
    forall p ensures p in SortedPlans(plans) <==> p in plans {
      SortMembers(plans, PlanId, p);
    }
    forall j ensures j in SortedJobs(jobs) <==> j in jobs {
      SortMembers(jobs, JobId, j);
    }
    SortAscends(plans, PlanId);
    SortFixed(SortedPlans(plans), PlanId);
    SortAscends(jobs, JobId);
    SortFixed(SortedJobs(jobs), JobId);
  }

  /** One action of any repository: the state stays valid and only goes forward. */
  lemma NextEvolves(accepts: State -> bool, h: Hashes, binding: StoreBinding, w: World, action: Action)
    requires Neutral(accepts, h, binding) && StateValid(h, binding, w.state) && Proper(w, action)
    ensures StateValid(h, binding, Next(accepts, w, action).state)
    ensures Evolves(w.state, Next(accepts, w, action).state)
  {
    hide StateValid, Evolves, Project, SortedPlans, SortedJobs, Replace, Continues, BlockForeign, OwnRows;
    StaysPut(w.state);
    match action
    case CommitRows(r, plans, jobs, outcome) =>
      if r < |w.repos| && w.repos[r].last.Some? {
        var repo := w.repos[r];
        ValidDistinct(h, binding, w.state);
        SortedOwnRows(plans, jobs, repo.scope);
        if Continues(repo.last.value, SortedPlans(plans), SortedJobs(jobs)) {
          CommitEvolves(w.state, repo.scope, repo.last.value, SortedPlans(plans), SortedJobs(jobs));
        }
      }
    case BlockOthers(scope, outcome) =>
      BlockingKeepsValid(h, binding, w.state, scope);
      BlockingEvolves(w.state, scope);
    case _ =>
  }

  lemma StaysPut(s: State)
    ensures Evolves(s, s)
  {
    forall j | j in s.jobs ensures GoesOn(j, s) {
      AdvancesItself(j);
    }
  }

  /** Every interleaving keeps the state valid, plans append-only, and jobs going forward. */
  lemma {:induction false} RunEvolves(accepts: State -> bool, h: Hashes, binding: StoreBinding, start: World,
                                      actions: seq<Action>)
    requires Neutral(accepts, h, binding) && StateValid(h, binding, start.state) && AllProper(accepts, start, actions)
    ensures StateValid(h, binding, Run(accepts, start, actions).state)
    ensures Evolves(start.state, Run(accepts, start, actions).state)
  {
    hide StateValid, Evolves, Next, Neutral, Proper;
    if |actions| == 0 {
      StaysPut(start.state);
    } else {
      var before := Run(accepts, start, actions[..|actions| - 1]);
      RunEvolves(accepts, h, binding, start, actions[..|actions| - 1]);
      NextEvolves(accepts, h, binding, before, actions[|actions| - 1]);
      EvolvesTransitive(start.state, before.state, Run(accepts, start, actions).state);
    }
  }

  /** An acknowledged commit leaves the repository knowing exactly the rows of its scope; until someone else
      touches them, its next commit meets what it expects. */
  lemma AcknowledgedIsCurrent(accepts: State -> bool, w: World, r: nat, plans: seq<Plan>, jobs: seq<Job>)
    requires r < |w.repos| && OwnRows(plans, jobs, w.repos[r].scope)
    ensures var after := Next(accepts, w, CommitRows(r, plans, jobs, Acknowledged));
      after != w ==> r < |after.repos| && after.repos[r].last == Some(Project(after.state, w.repos[r].scope))
  {
    hide Project, SortedPlans, SortedJobs, Continues, OwnRows, Replace;
    var repo := w.repos[r];
    SortedOwnRows(plans, jobs, repo.scope);
    if repo.last.Some? {
      CommitProjects(w.state, repo.scope, repo.last.value, SortedPlans(plans), SortedJobs(jobs));
    }
  }

  // ----- stopped jobs stay stopped -----

  /** The job has ended in the state. */
  ghost predicate Ended(s: State, id: int, scope: Scope)
  {
    exists j :: j in s.jobs && j.id == id && j.scope == scope && Terminal(j.status)
  }

  /** The repository still knows the job as unfinished. */
  ghost predicate Stale(repo: Repo, id: int, scope: Scope)
  {
    && repo.scope == scope && repo.last.Some?
    && exists j :: j in repo.last.value.jobs && j.id == id && j.scope == scope && !Terminal(j.status)
  }

  lemma EndedStays(a: State, b: State, id: int, scope: Scope)
    requires Ended(a, id, scope) && Evolves(a, b)
    ensures Ended(b, id, scope)
  {
    var j :| j in a.jobs && j.id == id && j.scope == scope && Terminal(j.status);
    assert GoesOn(j, b);
  }

  /** What a stale repository expects is no longer there. */
  lemma StaleIsRefused(s: State, repo: Repo, id: int, scope: Scope)
    requires DistinctJobs(s) && Ended(s, id, scope) && Stale(repo, id, scope)
    ensures Project(s, scope) != repo.last.value
  {
    hide Project;
    var ended :| ended in s.jobs && ended.id == id && ended.scope == scope && Terminal(ended.status);
    var known :| known in repo.last.value.jobs && known.id == id && known.scope == scope && !Terminal(known.status);
    ProjectedJob(s, scope, known);
  }

  lemma StaleStays(accepts: State -> bool, h: Hashes, binding: StoreBinding, w: World, action: Action, r: nat,
                   id: int, scope: Scope)
    requires Neutral(accepts, h, binding) && StateValid(h, binding, w.state) && Proper(w, action)
    requires r < |w.repos| && Stale(w.repos[r], id, scope) && Ended(w.state, id, scope)
    ensures var after := Next(accepts, w, action);
      r < |after.repos| && after.repos[r] == w.repos[r] && Ended(after.state, id, scope)
  {
    hide StateValid, Evolves, Project, SortedPlans, SortedJobs, Continues, BlockForeign, OwnRows, Ended, DistinctJobs;
    NextEvolves(accepts, h, binding, w, action);
    EndedStays(w.state, Next(accepts, w, action).state, id, scope);
    ValidDistinct(h, binding, w.state);
    StaleIsRefused(w.state, w.repos[r], id, scope);
  }

  /** A job that ended, stopped by another scope say, is never revived by a repository that knew it unfinished:
      in every continuation that repository never commits again, and the job stays ended. */
  lemma {:induction false} NeverRevived(accepts: State -> bool, h: Hashes, binding: StoreBinding, w: World,
                                        actions: seq<Action>, r: nat, id: int, scope: Scope)
    requires Neutral(accepts, h, binding) && StateValid(h, binding, w.state) && AllProper(accepts, w, actions)
    requires r < |w.repos| && Stale(w.repos[r], id, scope) && Ended(w.state, id, scope)
    ensures var after := Run(accepts, w, actions);
      && r < |after.repos| && after.repos[r] == w.repos[r] && Ended(after.state, id, scope)
      && Project(after.state, scope) != w.repos[r].last.value
  {
    hide StateValid, Next, Neutral, Proper, Ended, Stale, DistinctJobs, Project, Evolves;
    RunEvolves(accepts, h, binding, w, actions);
    if |actions| > 0 {
      var before := actions[..|actions| - 1];
      RunEvolves(accepts, h, binding, w, before);
      NeverRevived(accepts, h, binding, w, before, r, id, scope);
      StaleStays(accepts, h, binding, Run(accepts, w, before), actions[|actions| - 1], r, id, scope);
    }
    ValidDistinct(h, binding, Run(accepts, w, actions).state);
    StaleIsRefused(Run(accepts, w, actions).state, w.repos[r], id, scope);
  }

  /** What blocking makes of every job: one of its own scope and one that has ended stay as they are; a running one
      ends, with what it deleted or without, and is marked ambiguous; any other one waits for a review. */
  lemma BlockingOutcome(s: State, scope: Scope, i: nat)
    requires i < |s.jobs|
    ensures |BlockForeign(s, scope).jobs| == |s.jobs|
    ensures var job, after := s.jobs[i], BlockForeign(s, scope).jobs[i];
      if job.scope == scope || job.status in {Completed, Partial, Failed, Cancelled} then after == job
      else
        && after == job.(status := after.status, diagnostics := after.diagnostics, retryAt := None)
        && (job.status == Running ==>
              && (after.status == Partial <==> job.counters.deleted > 0)
              && (after.status == Failed <==> job.counters.deleted == 0)
              && after.diagnostics == job.diagnostics + [AmbiguousOutcome])
        && (job.status != Running ==>
              after.status == Blocked && after.diagnostics == job.diagnostics + [ScopeMismatchCode])
  {
  }

  /** Blocking ends every running job of another scope. */
  lemma BlockingEndsRunning(s: State, scope: Scope, job: Job)
    requires job in s.jobs && job.scope != scope && job.status.Running?
    ensures Ended(BlockForeign(s, scope), job.id, job.scope)
    ensures !NeedsBlocking(BlockForeign(s, scope), scope)
  {
    var after := BlockForeign(s, scope);
    var i :| 0 <= i < |s.jobs| && s.jobs[i] == job;
    assert after.jobs[i] in after.jobs;
  }
}
