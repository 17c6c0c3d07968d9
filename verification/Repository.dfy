/** Whole-scope repositories over one store: compare-and-swap commits, and blocking jobs of other scopes. */
module Repository {
  import opened FoundationState
  import opened FoundationStore
  import opened Options
  import opened RemediationPlan
  import opened Sorting

  type Provenance = (Option<Migration>, seq<LegacyEntry>)

  /** The rows of a scope, sorted by identity. */
  datatype Projection = Projection(plans: seq<Plan>, jobs: seq<Job>)

  // ----- rows of a scope -----

  function PlanIn(scope: Scope): Plan -> bool
  {
    (p: Plan) => p.scope == scope
  }

  function PlanOutside(scope: Scope): Plan -> bool
  {
    (p: Plan) => p.scope != scope
  }

  function JobIn(scope: Scope): Job -> bool
  {
    (j: Job) => j.scope == scope
  }

  function JobOutside(scope: Scope): Job -> bool
  {
    (j: Job) => j.scope != scope
  }

  function SortedPlans(plans: seq<Plan>): seq<Plan>
  {
    SortBy(plans, PlanId)
  }

  function SortedJobs(jobs: seq<Job>): seq<Job>
  {
    SortBy(jobs, JobId)
  }

  function Project(s: State, scope: Scope): Projection
  {
    Projection(SortedPlans(Keep(s.plans, PlanIn(scope))), SortedJobs(Keep(s.jobs, JobIn(scope))))
  }

  /** The rows are all of one scope. */
  ghost predicate OwnRows(plans: seq<Plan>, jobs: seq<Job>, scope: Scope)
  {
    (forall p :: p in plans ==> p.scope == scope) && forall j :: j in jobs ==> j.scope == scope
  }

  // ----- commit -----

  /** A job never goes back: cursor, counters, clock, and the end of its life. */
  predicate Advances(before: Job, job: Job)
  {
    && job.nextBatch >= before.nextBatch
    && job.counters.deleted >= before.counters.deleted && job.counters.skipped >= before.counters.skipped
    && job.counters.failed >= before.counters.failed && job.counters.uncertain >= before.counters.uncertain
    && job.updatedAt >= before.updatedAt
    && (Terminal(before.status) ==> Terminal(job.status))
  }

  function Find(jobs: seq<Job>, id: int): Option<Job>
  {
    if |jobs| == 0 then None else if jobs[0].id == id then Some(jobs[0]) else Find(jobs[1..], id)
  }

  /** What the expected rows demand of the new ones. */
  predicate Continues(expected: Projection, plans: seq<Plan>, jobs: seq<Job>)
  {
    && (forall i :: 0 <= i < |expected.plans| ==> expected.plans[i] in plans)
    && (forall i :: 0 <= i < |expected.jobs| ==> Find(jobs, expected.jobs[i].id).Some?)
    && (forall i :: 0 <= i < |jobs| ==>
          var before := Find(expected.jobs, jobs[i].id);
          before.Some? ==> Advances(before.value, jobs[i]))
  }

  /** The change that a commit makes, unless the scope's rows are not the expected ones. */
  function Replace(s: State, scope: Scope, expected: Projection, plans: seq<Plan>, jobs: seq<Job>): Option<State>
  {
    if Project(s, scope) != expected then None
    else Some(s.(plans := Keep(s.plans, PlanOutside(scope)) + plans, jobs := Keep(s.jobs, JobOutside(scope)) + jobs))
  }

  // ----- blocking the jobs of other scopes -----

  predicate Blockable(job: Job, scope: Scope)
  {
    job.scope != scope && !Terminal(job.status)
  }

  /** A running job ends; any other unfinished one waits for a review. */
  function Stop(job: Job): Job
  {
    if job.status.Running? then
      job.(status := if job.counters.deleted > 0 then Partial else Failed,
           diagnostics := job.diagnostics + [AmbiguousOutcome], retryAt := None)
    else job.(status := Blocked, diagnostics := job.diagnostics + [ScopeMismatchCode], retryAt := None)
  }

  function BlockedJobs(jobs: seq<Job>, scope: Scope): (r: seq<Job>)
    ensures |r| == |jobs|
    ensures forall i :: 0 <= i < |jobs| ==> r[i] == (if Blockable(jobs[i], scope) then Stop(jobs[i]) else jobs[i])
  {
    if |jobs| == 0 then []
    else
      var last := jobs[|jobs| - 1];
      BlockedJobs(jobs[..|jobs| - 1], scope) + [if Blockable(last, scope) then Stop(last) else last]
  }

  function BlockForeign(s: State, scope: Scope): State
  {
    s.(jobs := BlockedJobs(s.jobs, scope))
  }

  /** Some job of another scope is neither finished nor blocked. */
  predicate NeedsBlocking(s: State, scope: Scope)
  {
    exists i :: 0 <= i < |s.jobs| && Blockable(s.jobs[i], scope) && !s.jobs[i].status.Blocked?
  }

  // ----- the operations -----

  method SortRows(plans: seq<Plan>, jobs: seq<Job>) returns (sortedPlans: seq<Plan>, sortedJobs: seq<Job>)
    ensures sortedPlans == SortedPlans(plans) && sortedJobs == SortedJobs(jobs)
  {
    sortedPlans, sortedJobs := SortedPlans(plans), SortedJobs(jobs);
  }

  /** Nothing to block is success without a transaction. */
  function BlockOutcome(rules: Rules<State, Provenance>, disk: Disk<State>, runtime: Runtime<State>, scope: Scope,
                        snapshotFails: bool, readFails: bool, faults: Faults<State>)
    : (Disk<State>, Runtime<State>, bool)
  {
    var (seen, snapshot) := Snapshot(rules, disk, runtime, snapshotFails);
    if snapshot.None? then (disk, seen, false)
    else if !NeedsBlocking(snapshot.value, scope) then (disk, seen, true)
    else Transaction(rules, disk, seen, Blocking(scope), readFails, faults)
  }

  /** The edit of a blocking transaction, job by job in place. */
  method StopForeign(jobs: array<Job>, scope: Scope)
    modifies jobs
    ensures jobs[..] == BlockedJobs(old(jobs[..]), scope)
  {
    for i := 0 to jobs.Length
      invariant forall j :: 0 <= j < i ==>
        jobs[j] == (if Blockable(old(jobs[j]), scope) then Stop(old(jobs[j])) else old(jobs[j]))
      invariant forall j :: i <= j < jobs.Length ==> jobs[j] == old(jobs[j])
    {
      if jobs[i].scope != scope && !Terminal(jobs[i].status) {
        jobs[i] := Stop(jobs[i]);
      }
    }
  }

  /** Blocks the unfinished jobs of other scopes, in one transaction, if there are any to block. */
  method BlockForeignJobs(store: Store<State, Provenance>, scope: Scope, snapshotFails: bool, readFails: bool,
                          faults: Faults<State>)
    returns (ok: bool)
    modifies store, store.profile
    ensures (store.profile.disk, store.InMemory(), ok) ==
      BlockOutcome(store.rules, old(store.profile.disk), old(store.InMemory()), scope, snapshotFails, readFails, faults)
  {
    hide Snapshot, Transaction, BlockForeign;
    var snapshot := store.TakeSnapshot(snapshotFails);
    if snapshot.None? {
      return false;
    }
    if !NeedsBlocking(snapshot.value, scope) {
      return true;
    }
    ok := store.Transact(Blocking(scope), readFails, faults);
  }

  function Blocking(scope: Scope): State -> Option<State>
  {
    (s: State) => Some(BlockForeign(s, scope))
  }

  function Replacing(scope: Scope, expected: Projection, plans: seq<Plan>, jobs: seq<Job>): State -> Option<State>
  {
    (s: State) => Replace(s, scope, expected, plans, jobs)
  }

  class ScopedRepository {
    const store: Store<State, Provenance>
    const scope: Scope
    var last: Option<Projection>

    constructor (store: Store<State, Provenance>, scope: Scope)
      ensures this.store == store && this.scope == scope && last == None
    {
      this.store, this.scope, last := store, scope, None;
    }

    /** The rows of the scope; the first ones loaded are what commits are compared with. */
    method Load(readFails: bool) returns (r: Option<Projection>)
      modifies this, store
      ensures var (seen, snapshot) := Snapshot(store.rules, store.profile.disk, old(store.InMemory()), readFails);
        && store.InMemory() == seen
        && r == (if snapshot.None? then None else Some(Project(snapshot.value, scope)))
        && last == (if old(last).None? then r else old(last))
    {
      hide Snapshot, Project;
      var snapshot := store.TakeSnapshot(readFails);
      if snapshot.None? {
        return None;
      }
      r := Some(Project(snapshot.value, scope));
      if last.None? {
        last := r;
      }
    }

    /** Replaces the rows of the scope if they are still the ones last known, and remembers the new ones. */
    method Commit(plans: seq<Plan>, jobs: seq<Job>, readFails: bool, faults: Faults<State>) returns (ok: bool)
      modifies this, store, store.profile
      ensures var sortedPlans, sortedJobs := SortedPlans(plans), SortedJobs(jobs);
        if old(last).None? || !Continues(old(last).value, sortedPlans, sortedJobs) then
          !ok && last == old(last) && store.profile.disk == old(store.profile.disk)
            && store.InMemory() == old(store.InMemory())
        else
          && (store.profile.disk, store.InMemory(), ok) ==
               Transaction(store.rules, old(store.profile.disk), old(store.InMemory()),
                 Replacing(scope, old(last).value, sortedPlans, sortedJobs), readFails, faults)
          && last == (if ok then Some(Projection(sortedPlans, sortedJobs)) else old(last))
    {
      hide Continues, Transaction, Replace, SortedPlans, SortedJobs;
      var sortedPlans, sortedJobs := SortRows(plans, jobs);
      if last.None? || !Continues(last.value, sortedPlans, sortedJobs) {
        return false;
      }
      ok := store.Transact(Replacing(scope, last.value, sortedPlans, sortedJobs), readFails, faults);
      if ok {
        last := Some(Projection(sortedPlans, sortedJobs));
      }
    }
  }

  /** The profile has a source with this scope. */
  predicate HasSource(s: State, scope: Scope)
  {
    exists i :: 0 <= i < |s.sources| && Scope(s.sources[i].provider, s.sources[i].account, s.sources[i].id) == scope
  }

  /** The faults of the three steps of opening a repository. */
  datatype OpeningFaults = OpeningFaults(snapshotFails: bool, secondFails: bool, readFails: bool, faults: Faults<State>)

  /** A repository exists only for a scope of the profile, and only once the jobs of other scopes are blocked. */
  method OpenRepository(store: Store<State, Provenance>, scope: Scope, f: OpeningFaults)
    returns (r: Option<ScopedRepository>)
    modifies store, store.profile
    ensures r.Some? ==>
      && fresh(r.value) && r.value.store == store && r.value.scope == scope && r.value.last == None
    ensures var (seen, snapshot) := Snapshot(store.rules, old(store.profile.disk), old(store.InMemory()),
      f.snapshotFails);
      var known := snapshot.Some? && HasSource(snapshot.value, scope);
      && (!known ==> r.None? && store.profile.disk == old(store.profile.disk) && store.InMemory() == seen)
      && (known ==>
            (store.profile.disk, store.InMemory(), r.Some?) ==
              BlockOutcome(store.rules, old(store.profile.disk), seen, scope, f.secondFails, f.readFails, f.faults))
  {
    hide Snapshot, BlockOutcome, HasSource;
    var snapshot := store.TakeSnapshot(f.snapshotFails);
    if snapshot.None? || !HasSource(snapshot.value, scope) {
      return None;
    }
    var blocked := BlockForeignJobs(store, scope, f.secondFails, f.readFails, f.faults);
    if !blocked {
      return None;
    }
    var repository := new ScopedRepository(store, scope);
    return Some(repository);
  }
}
