/** Sealed plans: canonical targets, the conditions for sealing, and the binding that the fingerprint digests. */
module RemediationPlan {
  import opened CanonicalJson
  import opened Options
  import opened OrderedKeys

  const MAX_STEPS: nat := 1000
  const MAX_TARGETS: nat := 100_000

  datatype Error =
    InvalidReference | ScopeMismatch | ConflictingReference | InvalidPlan | FingerprintMismatch | InvalidConfirmation

  /** Identities are 128-bit numbers; zero is the nil identity. */
  datatype Scope = Scope(provider: string, account: int, source: int)

  datatype ResourceKind = Conversation | Content | Actor | Grouping

  /** What a resource's identity is derived from. */
  datatype Name = Name(account: int, kind: ResourceKind, schema: string, version: nat, key: string)

  datatype Resource = Resource(
    provider: string, account: int, kind: ResourceKind, schema: string, version: nat, key: string, payload: Value)

  datatype Ref = Ref(scope: Scope, id: int, resource: Resource)

  datatype ActionKind =
    | DeleteRemoteItem | RemoveForCurrentAccount | ClearConversation | LeaveConversation | DeleteConversation
    | DeleteByActor | OpenExternally | ManualRemediation | RemoveLocalImport

  datatype Effect =
    | RemovedForAllParticipants | RemovedForCurrentAccountOnly | PublicContentRemoved | MembershipRemoved
    | ContainerDestroyed | LocalImportRemoved | ManualOrUnknown

  datatype Availability = Executable | LivePreflightRequired | ManualOnly | Unavailable

  datatype Tier = Low | Medium | High | Critical

  datatype Advisory = Advisory(costBearing: bool, rateLimited: bool)

  datatype Descriptor = Descriptor(
    id: string, kind: ActionKind, effect: Effect, availability: Availability, unavailableReason: Option<string>,
    requiresLivePreflight: bool, maxTargets: nat, maxParallel: nat, tier: Tier, destructive: bool,
    irreversible: bool, advisory: Option<Advisory>)

  datatype Step = Step(descriptor: Descriptor, targets: seq<Ref>)

  datatype Confirmation = Confirmation(
    tier: Tier, acknowledgementRequired: bool, ownerAuthRequired: bool, exactText: Option<string>)

  datatype Payload = Payload(schema: string, version: nat, payload: Value)

  datatype RestartPolicy = RequiresNewReview | ResumeFrozenTargets

  datatype Plan = Plan(
    id: int, scope: Scope, steps: seq<Step>, targets: seq<Ref>, confirmation: Confirmation, recipe: Payload,
    restartPolicy: RestartPolicy, createdAt: int, fingerprint: string)

  /** What the fingerprint binds: everything but itself, with payloads in canonical form. */
  datatype Binding = Binding(
    id: int, scope: Scope, steps: seq<Step>, targets: seq<Ref>, confirmation: Confirmation, recipe: Payload,
    restartPolicy: RestartPolicy, createdAt: int)

  /** The two digests: any functions will do, except where injectivity is asked for. */
  datatype Hashes = Hashes(resourceId: Name -> int, digest: Binding -> string)

  // ----- single values -----

  /** The control characters of Unicode: C0, delete, and C1. */
  predicate Control(c: char)
  {
    c < ' ' || '\U{7f}' <= c <= '\U{9f}'
  }

  /** The characters with the property White_Space of Unicode. */
  predicate WhiteSpace(c: char)
  {
    || '\U{9}' <= c <= '\U{d}' || c == ' ' || c == '\U{85}' || c == '\U{a0}' || c == '\U{1680}'
    || '\U{2000}' <= c <= '\U{200a}' || c == '\U{2028}' || c == '\U{2029}' || c == '\U{202f}' || c == '\U{205f}'
    || c == '\U{3000}'
  }

  /** How many bytes a text takes in UTF-8. */
  function Utf8Length(text: string): nat
  {
    if |text| == 0 then 0
    else
      var c := text[|text| - 1];
      Utf8Length(text[..|text| - 1])
      + if c < '\U{80}' then 1 else if c < '\U{800}' then 2 else if c < '\U{10000}' then 3 else 4
  }

  /** Not blank, not too long, and free of control characters. */
  predicate BoundedText(text: string, max: nat)
  {
    && Utf8Length(text) <= max
    && (exists i :: 0 <= i < |text| && !WhiteSpace(text[i]))
    && (forall i :: 0 <= i < |text| ==> !Control(text[i]))
  }

  function Rank(tier: Tier): nat
  {
    match tier
    case Low => 0
    case Medium => 1
    case High => 2
    case Critical => 3
  }

  function NameOf(resource: Resource): Name
  {
    Name(resource.account, resource.kind, resource.schema, resource.version, resource.key)
  }

  /** A reference belongs to the scope and its identity is derived from its resource. */
  function RefError(h: Hashes, ref: Ref, expected: Scope): (error: Option<Error>)
    ensures error.Some? ==> error.value == ScopeMismatch || error.value == InvalidReference
  {
    if ref.scope != expected || ref.resource.provider != expected.provider || ref.resource.account != expected.account
    then Some(ScopeMismatch)
    else if !BoundedText(ref.resource.schema, 128) || ref.resource.version == 0 || !BoundedText(ref.resource.key, 4096)
    then Some(InvalidReference)
    else if ref.id != h.resourceId(NameOf(ref.resource)) then Some(InvalidReference)
    else None
  }

  predicate DescriptorValid(d: Descriptor)
  {
    && BoundedText(d.id, 128) && d.maxTargets != 0 && d.maxParallel != 0
    && (d.availability == Unavailable <==> d.unavailableReason.Some?)
    && (d.availability == LivePreflightRequired ==> d.requiresLivePreflight)
    && (d.effect == ContainerDestroyed ==> d.tier == Critical && d.destructive && d.irreversible)
  }

  /** The action may be a step of a plan with this restart policy. */
  predicate Admissible(d: Descriptor, policy: RestartPolicy)
  {
    && DescriptorValid(d)
    && (d.availability == Executable || d.availability == LivePreflightRequired)
    && (policy == ResumeFrozenTargets ==>
          && (d.kind == DeleteRemoteItem || d.kind == RemoveForCurrentAccount)
          && !(d.advisory.Some? && d.advisory.value.costBearing))
  }

  predicate PayloadValid(recipe: Payload)
  {
    BoundedText(recipe.schema, 128) && recipe.version != 0
  }

  predicate ConfirmationSuffices(c: Confirmation, tier: Tier)
  {
    && Rank(c.tier) >= Rank(tier) && c.acknowledgementRequired && c.ownerAuthRequired
    && (Rank(c.tier) >= Rank(High) ==> c.exactText.Some?)
    && (c.exactText.Some? ==> BoundedText(c.exactText.value, 4096))
  }

  // ----- equality up to the order of JSON keys -----

  function CanonRef(ref: Ref): Ref
  {
    ref.(resource := ref.resource.(payload := Ordered(ref.resource.payload)))
  }

  function CanonRefs(refs: seq<Ref>): seq<Ref>
  {
    seq(|refs|, i requires 0 <= i < |refs| => CanonRef(refs[i]))
  }

  function CanonSteps(steps: seq<Step>): seq<Step>
  {
    seq(|steps|, i requires 0 <= i < |steps| => steps[i].(targets := CanonRefs(steps[i].targets)))
  }

  function BindingOf(plan: Plan): Binding
  {
    Binding(
      plan.id, plan.scope, CanonSteps(plan.steps), CanonRefs(plan.targets), plan.confirmation,
      plan.recipe.(payload := Ordered(plan.recipe.payload)), plan.restartPolicy, plan.createdAt)
  }

  /** Two references have the same canonical form exactly when they are equal but for the order of JSON keys. */
  lemma SameCanonRef(a: Ref, b: Ref)
    requires Proper(a.resource.payload) && Proper(b.resource.payload)
    ensures CanonRef(a) == CanonRef(b) <==>
      && a.(resource := a.resource.(payload := Null)) == b.(resource := b.resource.(payload := Null))
      && Same(a.resource.payload, b.resource.payload)
  {
    OrderedIffSame(a.resource.payload, b.resource.payload);
  }

  // ----- the same plan, field by field -----

  /** The references are equal, but for the order of JSON keys. */
  predicate SameRef(a: Ref, b: Ref)
  {
    && a.scope == b.scope && a.id == b.id
    && a.resource.provider == b.resource.provider && a.resource.account == b.resource.account
    && a.resource.kind == b.resource.kind && a.resource.key == b.resource.key
    && a.resource.schema == b.resource.schema && a.resource.version == b.resource.version
    && Same(a.resource.payload, b.resource.payload)
  }

  predicate SameRefs(a: seq<Ref>, b: seq<Ref>)
  {
    |a| == |b| && forall i :: 0 <= i < |a| ==> SameRef(a[i], b[i])
  }

  /** The plans agree in everything but the fingerprint, up to the order of JSON keys. */
  predicate SamePlan(a: Plan, b: Plan)
  {
    && a.id == b.id && a.scope == b.scope && a.createdAt == b.createdAt && a.restartPolicy == b.restartPolicy
    && a.confirmation.tier == b.confirmation.tier
    && a.confirmation.acknowledgementRequired == b.confirmation.acknowledgementRequired
    && a.confirmation.ownerAuthRequired == b.confirmation.ownerAuthRequired
    && a.confirmation.exactText == b.confirmation.exactText
    && a.recipe.schema == b.recipe.schema && a.recipe.version == b.recipe.version
    && Same(a.recipe.payload, b.recipe.payload)
    && SameRefs(a.targets, b.targets)
    && |a.steps| == |b.steps|
    && forall i :: 0 <= i < |a.steps| ==>
         a.steps[i].descriptor == b.steps[i].descriptor && SameRefs(a.steps[i].targets, b.steps[i].targets)
  }

  predicate ProperRefs(refs: seq<Ref>)
  {
    forall i :: 0 <= i < |refs| ==> Proper(refs[i].resource.payload)
  }

  /** No object in a payload has a key twice. */
  predicate ProperPlan(plan: Plan)
  {
    && Proper(plan.recipe.payload) && ProperRefs(plan.targets)
    && forall i :: 0 <= i < |plan.steps| ==> ProperRefs(plan.steps[i].targets)
  }

  lemma SameRefsBound(a: seq<Ref>, b: seq<Ref>)
    requires ProperRefs(a) && ProperRefs(b)
    ensures CanonRefs(a) == CanonRefs(b) <==> SameRefs(a, b)
  {
    hide Same, Ordered, Proper, CanonRef;
    if |a| == |b| {
      forall i | 0 <= i < |a| ensures CanonRefs(a)[i] == CanonRefs(b)[i] <==> SameRef(a[i], b[i]) {
        SameRefBound(a[i], b[i]);
      }
    }
  }

  lemma SameRefBound(a: Ref, b: Ref)
    requires Proper(a.resource.payload) && Proper(b.resource.payload)
    ensures CanonRef(a) == CanonRef(b) <==> SameRef(a, b)
  {
    hide Same, Ordered, Proper;
    OrderedIffSame(a.resource.payload, b.resource.payload);
  }

  /** What the fingerprint binds is the plan itself: plans are bound to the same exactly when they are the same. */
  lemma BoundIffSame(a: Plan, b: Plan)
    requires ProperPlan(a) && ProperPlan(b)
    ensures BindingOf(a) == BindingOf(b) <==> SamePlan(a, b)
  {
    hide Same, Ordered, Proper, CanonRefs, SameRefs, ProperRefs;
    OrderedIffSame(a.recipe.payload, b.recipe.payload);
    SameRefsBound(a.targets, b.targets);
    if |a.steps| == |b.steps| {
      var x, y := CanonSteps(a.steps), CanonSteps(b.steps);
      forall i | 0 <= i < |x|
        ensures x[i] == y[i] <==>
          a.steps[i].descriptor == b.steps[i].descriptor && SameRefs(a.steps[i].targets, b.steps[i].targets)
      {
        SameRefsBound(a.steps[i].targets, b.steps[i].targets);
      }
      assert x == y <==> forall i | 0 <= i < |x| :: x[i] == y[i];
    }
  }

  /** The references of a list, each in canonical form. */
  ghost function CanonSet(refs: seq<Ref>): set<Ref>
  {
    set i | 0 <= i < |refs| :: CanonRef(refs[i])
  }

  lemma CanonSetAdd(a: seq<Ref>, b: seq<Ref>)
    ensures CanonSet(a + b) == CanonSet(a) + CanonSet(b)
  {
    forall x ensures x in CanonSet(a + b) <==> x in CanonSet(a) + CanonSet(b) {
      if x in CanonSet(a) {
        var i :| 0 <= i < |a| && CanonRef(a[i]) == x;
        assert (a + b)[i] == a[i];
      }
      if x in CanonSet(b) {
        var i :| 0 <= i < |b| && CanonRef(b[i]) == x;
        assert (a + b)[|a| + i] == b[i];
      }
    }
  }

  lemma CanonSetOne(ref: Ref)
    ensures CanonSet([ref]) == {CanonRef(ref)}
  {
    assert [ref][0] == ref;
  }

  /** All belong to the scope, and no identity stands for two different references. */
  ghost predicate Acceptable(h: Hashes, refs: set<Ref>, scope: Scope)
  {
    && (forall x :: x in refs ==> RefError(h, x, scope).None?)
    && forall x, y :: x in refs && y in refs && x.id == y.id ==> x == y
  }

  // ----- canonical targets -----

  /** The last reference of every identity. */
  function ById(targets: seq<Ref>): map<int, Ref>
  {
    if |targets| == 0 then map[]
    else ById(targets[..|targets| - 1])[targets[|targets| - 1].id := targets[|targets| - 1]]
  }

  /** The values of an ordered map. */
  ghost function InOrder(m: map<int, Ref>): (r: seq<Ref>)
    ensures |r| == |m|
    decreases |m|
  {
    if m == map[] then []
    else
      var id := Least(m.Keys);
      assert id in m.Keys;
      [m[id]] + InOrder(m - {id})
  }

  ghost function Canonical(targets: seq<Ref>): seq<Ref>
  {
    InOrder(ById(targets))
  }

  /** The first reference that is refused, and why. */
  ghost predicate FirstProblem(h: Hashes, targets: seq<Ref>, scope: Scope, i: nat, error: Error)
  {
    && i < |targets|
    && Acceptable(h, CanonSet(targets[..i]), scope)
    && match RefError(h, targets[i], scope)
       case Some(e) => e == error
       case None =>
         && error == ConflictingReference
         && exists x :: x in CanonSet(targets[..i]) && x.id == targets[i].id && x != CanonRef(targets[i])
  }

  lemma {:induction false} ByIdMeans(targets: seq<Ref>)
    ensures forall id :: id in ById(targets) ==>
      ById(targets)[id].id == id && CanonRef(ById(targets)[id]) in CanonSet(targets)
    ensures forall x :: x in CanonSet(targets) ==> x.id in ById(targets)
    ensures |ById(targets)| <= |targets|
  {
    if |targets| > 0 {
      var shorter, last := targets[..|targets| - 1], targets[|targets| - 1];
      ByIdMeans(shorter);
      assert targets == shorter + [last];
      CanonSetAdd(shorter, [last]);
      CanonSetOne(last);
    }
  }

  /** One more target is accepted when it is in scope and does not contradict the last one of its identity. */
  lemma OneMore(h: Hashes, targets: seq<Ref>, i: nat, scope: Scope)
    requires i < |targets| && Acceptable(h, CanonSet(targets[..i]), scope)
    ensures ById(targets[..i + 1]) == ById(targets[..i])[targets[i].id := targets[i]]
    ensures Acceptable(h, CanonSet(targets[..i + 1]), scope) <==>
      && RefError(h, targets[i], scope).None?
      && (targets[i].id in ById(targets[..i]) ==> CanonRef(ById(targets[..i])[targets[i].id]) == CanonRef(targets[i]))
    ensures CanonSet(targets[..i + 1]) <= CanonSet(targets)
  {
    var before, target := targets[..i], targets[i];
    assert targets[..i + 1] == before + [target] && targets[..i + 1][..i] == before;
    assert targets == targets[..i + 1] + targets[i + 1..];
    CanonSetAdd(before, [target]);
    CanonSetAdd(targets[..i + 1], targets[i + 1..]);
    CanonSetOne(target);
    AcceptOne(h, before, target, scope);
  }

  lemma AcceptOne(h: Hashes, before: seq<Ref>, target: Ref, scope: Scope)
    requires Acceptable(h, CanonSet(before), scope)
    ensures Acceptable(h, CanonSet(before) + {CanonRef(target)}, scope) <==>
      && RefError(h, target, scope).None?
      && (target.id in ById(before) ==> CanonRef(ById(before)[target.id]) == CanonRef(target))
  {
    hide ById, CanonSet, RefError;
    ByIdMeans(before);
    RefErrorOfCanon(h, target, scope);
  }

  lemma RefErrorOfCanon(h: Hashes, ref: Ref, scope: Scope)
    ensures RefError(h, CanonRef(ref), scope) == RefError(h, ref, scope)
  {
  }

  method CanonicalTargets(h: Hashes, targets: seq<Ref>, scope: Scope) returns (r: Result<seq<Ref>, Error>)
    ensures r.Ok? <==> Acceptable(h, CanonSet(targets), scope)
    ensures r.Ok? ==> r.value == Canonical(targets)
    ensures r.Err? ==> exists i :: FirstProblem(h, targets, scope, i, r.error)
    ensures r.Err? ==> r.error == ScopeMismatch || r.error == InvalidReference || r.error == ConflictingReference
  {
    hide ById, CanonSet, RefError;
    NoTargets(h, targets, scope);
    var byId: map<int, Ref> := map[];
    for index := 0 to |targets|
      invariant byId == ById(targets[..index])
      invariant Acceptable(h, CanonSet(targets[..index]), scope)
    {
      OneMore(h, targets, index, scope);
      ByIdMeans(targets[..index]);
      var target := targets[index];
      var problem := RefError(h, target, scope);
      if problem.Some? {
        assert FirstProblem(h, targets, scope, index, problem.value);
        return Err(problem.value);
      }
      if target.id in byId && CanonRef(byId[target.id]) != CanonRef(target) {
        assert FirstProblem(h, targets, scope, index, ConflictingReference);
        return Err(ConflictingReference);
      }
      byId := byId[target.id := target];
    }
    assert targets[..|targets|] == targets;
    var values := OrderedValues(byId);
    return Ok(values);
  }

  lemma NoTargets(h: Hashes, targets: seq<Ref>, scope: Scope)
    ensures ById(targets[..0]) == map[] && Acceptable(h, CanonSet(targets[..0]), scope)
  {
  }

  lemma NextInOrder(m: map<int, Ref>, id: int)
    requires IsLeast(m.Keys, id)
    ensures id in m && |m - {id}| < |m| && InOrder(m) == [m[id]] + InOrder(m - {id})
  {
    assert id == Least(m.Keys);
    assert (m - {id}).Keys == m.Keys - {id};
  }

  lemma NothingInOrder()
    ensures InOrder(map[]) == []
  {
  }

  method OrderedValues(byId: map<int, Ref>) returns (values: seq<Ref>)
    ensures values == InOrder(byId)
  {
    hide InOrder;
    values := [];
    var rest := byId;
    NothingInOrder();
    while rest != map[]
      invariant values + InOrder(rest) == InOrder(byId)
      decreases |rest|
    {
      HasLeast(rest.Keys);
      var id :| id in rest.Keys && forall k :: k in rest.Keys ==> id <= k;
      NextInOrder(rest, id);
      values := values + [rest[id]];
      rest := rest - {id};
    }
  }

  // ----- properties of canonical targets -----

  ghost function CanonMap(m: map<int, Ref>): map<int, Ref>
  {
    map id | id in m :: CanonRef(m[id])
  }

  lemma {:induction false} InOrderCanon(m: map<int, Ref>)
    ensures CanonRefs(InOrder(m)) == InOrder(CanonMap(m))
    decreases |m|
  {
    hide InOrder, CanonRef;
    assert CanonMap(m).Keys == m.Keys;
    if m == map[] {
      assert CanonMap(m) == map[];
      NothingInOrder();
    } else {
      var id := Least(m.Keys);
      assert id in m.Keys;
      NextInOrder(m, id);
      NextInOrder(CanonMap(m), id);
      InOrderCanon(m - {id});
      assert CanonMap(m) - {id} == CanonMap(m - {id});
    }
  }

  lemma {:induction false} InOrderById(m: map<int, Ref>)
    requires forall id :: id in m ==> m[id].id == id
    ensures ById(InOrder(m)) == m
    decreases |m|
  {
    if m != map[] {
      var id := Least(m.Keys);
      assert id in m.Keys;
      InOrderById(m - {id});
      ByIdCons(m[id], InOrder(m - {id}));
    }
  }

  /** A first reference whose identity does not come again is entered as any other. */
  lemma {:induction false} ByIdCons(first: Ref, rest: seq<Ref>)
    ensures first.id !in ById(rest) ==> ById([first] + rest) == ById(rest)[first.id := first]
    ensures first.id in ById(rest) ==> ById([first] + rest) == ById(rest)
  {
    var all := [first] + rest;
    if |rest| > 0 {
      var n := |rest| - 1;
      ByIdCons(first, rest[..n]);
      assert all[..|all| - 1] == [first] + rest[..n];
    }
  }

  lemma {:induction false} InOrderSet(m: map<int, Ref>)
    ensures forall x :: x in CanonSet(InOrder(m)) <==> exists id :: id in m && CanonRef(m[id]) == x
    decreases |m|
  {
    if m != map[] {
      var id := Least(m.Keys);
      assert id in m.Keys;
      InOrderSet(m - {id});
      CanonSetAdd([m[id]], InOrder(m - {id}));
      CanonSetOne(m[id]);
      forall x ensures x in CanonSet(InOrder(m)) <==> exists k :: k in m && CanonRef(m[k]) == x {
        if k :| k in m && CanonRef(m[k]) == x {
          assert k != id ==> k in m - {id};
        }
      }
    }
  }

  /** The canonical list has the references of the targets, each once, and is its own canonical list. */
  lemma CanonicalKeeps(h: Hashes, targets: seq<Ref>, scope: Scope)
    requires Acceptable(h, CanonSet(targets), scope)
    ensures CanonSet(Canonical(targets)) == CanonSet(targets)
    ensures Canonical(Canonical(targets)) == Canonical(targets)
    ensures |Canonical(targets)| <= |targets| && (targets != [] ==> Canonical(targets) != [])
  {
    hide InOrder, ById, CanonSet;
    ByIdMeans(targets);
    InOrderById(ById(targets));
    InOrderSet(ById(targets));
    forall x ensures x in CanonSet(Canonical(targets)) <==> x in CanonSet(targets) {
      if x in CanonSet(targets) {
        var y := CanonRef(ById(targets)[x.id]);
        assert y in CanonSet(targets) && y.id == x.id;
      }
    }
    if targets != [] {
      HasReference(targets);
    }
  }

  lemma HasReference(targets: seq<Ref>)
    requires targets != []
    ensures ById(targets) != map[]
  {
    assert targets[|targets| - 1].id in ById(targets);
  }

  /** The map holds exactly these references, each under its identity. */
  ghost predicate Indexes(m: map<int, Ref>, refs: set<Ref>)
  {
    && (forall id :: id in m ==> m[id] in refs && m[id].id == id)
    && forall x :: x in refs ==> x.id in m && m[x.id] == x
  }

  lemma CanonMapMeans(h: Hashes, targets: seq<Ref>, scope: Scope)
    requires Acceptable(h, CanonSet(targets), scope)
    ensures Indexes(CanonMap(ById(targets)), CanonSet(targets))
  {
    hide ById, CanonSet, RefError;
    ByIdMeans(targets);
  }

  lemma SameMap(a: map<int, Ref>, b: map<int, Ref>, refs: set<Ref>)
    requires Indexes(a, refs) && Indexes(b, refs)
    ensures a == b
  {
    forall id ensures id in a <==> id in b {
      assert id in a ==> a[id] in refs;
      assert id in b ==> b[id] in refs;
    }
    forall id | id in a ensures a[id] == b[id] {
      assert a[id] in refs;
    }
  }

  /** Lists with the same references have the same canonical list, up to the order of JSON keys. */
  lemma CanonicalOfSet(h: Hashes, a: seq<Ref>, b: seq<Ref>, scope: Scope)
    requires Acceptable(h, CanonSet(a), scope) && CanonSet(a) == CanonSet(b)
    ensures CanonRefs(Canonical(a)) == CanonRefs(Canonical(b))
  {
    hide InOrder, ById, CanonSet, CanonRefs, CanonMap, Acceptable, Indexes;
    CanonMapMeans(h, a, scope);
    CanonMapMeans(h, b, scope);
    SameMap(CanonMap(ById(a)), CanonMap(ById(b)), CanonSet(a));
    InOrderCanon(ById(a));
    InOrderCanon(ById(b));
  }

  lemma CanonSetOfCanon(a: seq<Ref>, b: seq<Ref>)
    requires CanonRefs(a) == CanonRefs(b)
    ensures CanonSet(a) == CanonSet(b)
  {
    forall x ensures x in CanonSet(a) <==> x in CanonSet(b) {
      if x in CanonSet(a) {
        var i :| 0 <= i < |a| && CanonRef(a[i]) == x;
        assert CanonRefs(a)[i] == CanonRefs(b)[i];
      }
      if x in CanonSet(b) {
        var i :| 0 <= i < |b| && CanonRef(b[i]) == x;
        assert CanonRefs(a)[i] == CanonRefs(b)[i];
      }
    }
    assert |CanonRefs(a)| == |a| && |CanonRefs(b)| == |b|;
  }
}
