/** The persisted state of a profile and the rows it may hold. */
module FoundationState {
  import opened Options
  import opened RemediationPlan
  import opened Sealing

  const SCHEMA_VERSION: nat := 3
  const U64: nat := 0x1_0000_0000_0000_0000

  datatype StoreBinding = StoreBinding(provider: string, profile: string)

  datatype Account = Account(
    id: int, provider: string, nativeIdentity: Payload, avatar: Option<Payload>, createdAt: int, lastSeenAt: int)

  datatype SourceKind = LiveConnection | ArchiveImport

  datatype Source = Source(
    id: int, account: int, provider: string, kind: SourceKind, archiveFingerprint: Option<string>,
    schemaProfile: Payload, importedAt: Option<int>)

  datatype Status = Queued | Running | Blocked | Completed | Partial | Failed | Cancelled

  datatype Code =
    | IdentityUnavailable | ScopeMismatchCode | StaleContext | AmbiguousOutcome | MigrationRequiresNewReview
    | OtherCode(name: string)

  datatype Counters = Counters(selected: nat, eligible: nat, deleted: nat, skipped: nat, failed: nat, uncertain: nat)

  datatype Job = Job(
    id: int, planId: int, scope: Scope, dirty: seq<Ref>, status: Status, counters: Counters, nextBatch: nat,
    retryAt: Option<int>, diagnostics: seq<Code>, startedAuthorized: bool, createdAt: int, updatedAt: int)

  datatype LegacyEntry = LegacyEntry(
    id: int, planId: int, status: Status, diagnostics: seq<Code>, createdAt: int, updatedAt: int, executable: bool)

  datatype Migration = Migration(sourceSha256: string, sourceBytes: nat)

  datatype State = State(
    schemaVersion: nat, binding: StoreBinding, accounts: seq<Account>, sources: seq<Source>, plans: seq<Plan>,
    jobs: seq<Job>, history: seq<LegacyEntry>, migration: Option<Migration>)

  predicate Terminal(status: Status)
  {
    status.Completed? || status.Partial? || status.Failed? || status.Cancelled?
  }

  // ----- rows -----

  predicate BindingValid(b: StoreBinding)
  {
    BoundedText(b.profile, 256)
  }

  predicate AccountValid(a: Account)
  {
    PayloadValid(a.nativeIdentity) && (a.avatar.Some? ==> PayloadValid(a.avatar.value)) && a.lastSeenAt >= a.createdAt
  }

  predicate SourceValid(s: Source, a: Account)
  {
    && AccountValid(a) && s.account == a.id && s.provider == a.provider
    && PayloadValid(s.schemaProfile)
    && (match s.kind
        case LiveConnection => s.archiveFingerprint.None? && s.importedAt.None?
        case ArchiveImport => s.archiveFingerprint.Some? && BoundedText(s.archiveFingerprint.value, 256))
  }

  predicate Explains(code: Code)
  {
    code == IdentityUnavailable || code == ScopeMismatchCode || code == StaleContext
  }

  /** The clauses of a job that do not look at other rows. */
  predicate JobShape(job: Job)
  {
    var c := job.counters;
    && job.id != 0 && job.updatedAt >= job.createdAt
    && (job.status.Running? || job.status.Completed? || job.status.Partial? ==> job.startedAuthorized)
    && (Terminal(job.status) || job.status.Blocked? ==> job.retryAt.None?)
    && (job.status.Blocked? ==> exists i :: 0 <= i < |job.diagnostics| && Explains(job.diagnostics[i]))
    && c.deleted + c.failed + c.uncertain < U64
    && c.eligible <= c.selected && c.skipped <= c.selected && c.deleted + c.failed + c.uncertain <= c.eligible
    && (job.status.Completed? ==> c.failed == 0 && c.uncertain == 0)
    && (c.uncertain > 0 ==> Terminal(job.status))
  }

  ghost predicate JobFits(h: Hashes, job: Job, plan: Plan)
  {
    && Valid(h, plan) && JobShape(job)
    && job.planId == plan.id && job.scope == plan.scope
    && Acceptable(h, CanonSet(job.dirty), job.scope)
  }

  predicate LowerHex(c: char)
  {
    '0' <= c <= '9' || 'a' <= c <= 'f'
  }

  predicate Sha256Text(text: string)
  {
    |text| == 71 && text[..7] == "sha256:" && forall i :: 7 <= i < 71 ==> LowerHex(text[i])
  }

  predicate EntryValid(e: LegacyEntry)
  {
    && !e.executable && e.id != 0 && e.planId != 0 && e.updatedAt >= e.createdAt
    && (MigrationRequiresNewReview in e.diagnostics ==> e.status.Failed? || e.status.Partial?)
  }

  /** The batches of one step, rounded up. */
  function BatchesOf(step: Step): nat
  {
    if step.descriptor.maxTargets == 0 then 0
    else (|step.targets| + step.descriptor.maxTargets - 1) / step.descriptor.maxTargets
  }

  function BatchCount(steps: seq<Step>): nat
  {
    if |steps| == 0 then 0 else BatchCount(steps[..|steps| - 1]) + BatchesOf(steps[|steps| - 1])
  }

  // ----- rows by identity -----

  ghost predicate Distinct<T(!new)>(rows: seq<T>, id: T -> int)
  {
    forall i, j :: 0 <= i < j < |rows| ==> id(rows[i]) != id(rows[j])
  }

  /** The map holds exactly these rows, each under its identity. */
  ghost predicate KeyedBy<T(!new)>(m: map<int, T>, rows: seq<T>, id: T -> int)
  {
    && (forall k :: k in m ==> m[k] in rows && id(m[k]) == k)
    && forall i :: 0 <= i < |rows| ==> id(rows[i]) in m && m[id(rows[i])] == rows[i]
  }

  lemma Enter<T(!new)>(m: map<int, T>, rows: seq<T>, i: nat, id: T -> int)
    requires i < |rows| && KeyedBy(m, rows[..i], id) && Distinct(rows[..i], id)
    ensures Distinct(rows[..i + 1], id) <==> id(rows[i]) !in m
    ensures id(rows[i]) !in m ==> KeyedBy(m[id(rows[i]) := rows[i]], rows[..i + 1], id)
    ensures id(rows[i]) in m ==> !Distinct(rows, id)
  {
    var before, longer, row := rows[..i], rows[..i + 1], rows[i];
    assert longer == before + [row];
    var k := id(row);
    if k in m {
      assert m[k] in before && id(m[k]) == k;
      var j :| 0 <= j < |before| && before[j] == m[k];
      assert longer[j] == before[j] == rows[j] && longer[i] == row;
    } else {
      forall a, b | 0 <= a < b < |longer| ensures id(longer[a]) != id(longer[b]) {
        assert longer[a] == before[a] && id(before[a]) in m;
      }
    }
  }

  function AccountId(a: Account): int
  {
    a.id
  }

  function SourceId(s: Source): int
  {
    s.id
  }

  function PlanId(p: Plan): int
  {
    p.id
  }

  function JobId(j: Job): int
  {
    j.id
  }

  function EntryId(e: LegacyEntry): int
  {
    e.id
  }

  // ----- a valid state -----

  /** The resource that an identity stands for, up to the order of JSON keys. */
  ghost function Named(refs: seq<Ref>): set<(int, Resource)>
  {
    set i | 0 <= i < |refs| :: (refs[i].id, CanonRef(refs[i]).resource)
  }

  ghost function PlanNames(plans: seq<Plan>): set<(int, Resource)>
  {
    if |plans| == 0 then {} else PlanNames(plans[..|plans| - 1]) + Named(plans[|plans| - 1].targets)
  }

  ghost function JobNames(jobs: seq<Job>): set<(int, Resource)>
  {
    if |jobs| == 0 then {} else JobNames(jobs[..|jobs| - 1]) + Named(jobs[|jobs| - 1].dirty)
  }

  ghost predicate Functional(names: set<(int, Resource)>)
  {
    forall x, y :: x in names && y in names && x.0 == y.0 ==> x == y
  }

  ghost predicate AccountsValid(s: State)
  {
    && (forall i :: 0 <= i < |s.accounts| ==>
      AccountValid(s.accounts[i]) && s.accounts[i].provider == s.binding.provider)
    && Distinct(s.accounts, AccountId)
  }

  ghost predicate SourcesValid(s: State)
  {
    && (forall i :: 0 <= i < |s.sources| ==>
          && s.sources[i].provider == s.binding.provider
          && exists a :: 0 <= a < |s.accounts| && SourceValid(s.sources[i], s.accounts[a]))
    && Distinct(s.sources, SourceId)
  }

  /** The scope is that of a source of the profile. */
  ghost predicate Owned(s: State, scope: Scope)
  {
    exists i :: 0 <= i < |s.sources| && scope == Scope(s.sources[i].provider, s.sources[i].account, s.sources[i].id)
  }

  ghost predicate PlansValid(h: Hashes, s: State)
  {
    && (forall i :: 0 <= i < |s.plans| ==> Valid(h, s.plans[i]) && Owned(s, s.plans[i].scope))
    && Distinct(s.plans, PlanId)
  }

  ghost predicate HasPlan(h: Hashes, s: State, job: Job)
  {
    exists i :: 0 <= i < |s.plans| && JobFits(h, job, s.plans[i]) && job.nextBatch <= BatchCount(s.plans[i].steps)
  }

  ghost predicate JobsValid(h: Hashes, s: State)
  {
    && (forall i :: 0 <= i < |s.jobs| ==> HasPlan(h, s, s.jobs[i]) && Owned(s, s.jobs[i].scope))
    && Distinct(s.jobs, JobId)
  }

  ghost predicate HistoryValid(s: State)
  {
    && (forall i :: 0 <= i < |s.history| ==> EntryValid(s.history[i]))
    && Distinct(s.history, EntryId)
    && (forall i, j :: 0 <= i < |s.history| && 0 <= j < |s.jobs| ==> s.history[i].id != s.jobs[j].id)
    && (s.history != [] ==> s.migration.Some?)
    && (s.migration.Some? ==> s.migration.value.sourceBytes != 0 && Sha256Text(s.migration.value.sourceSha256))
  }

  ghost predicate StateValid(h: Hashes, binding: StoreBinding, s: State)
  {
    && BindingValid(binding) && s.schemaVersion == SCHEMA_VERSION && s.binding == binding
    && AccountsValid(s) && SourcesValid(s) && PlansValid(h, s) && JobsValid(h, s)
    && Functional(PlanNames(s.plans) + JobNames(s.jobs))
    && HistoryValid(s)
  }
}
