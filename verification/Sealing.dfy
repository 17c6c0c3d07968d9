/** Sealing a plan and validating a sealed one. */
module Sealing {
  import opened Options
  import opened RemediationPlan

  // ----- when a plan can be sealed, and what it becomes -----

  function AllStepTargets(steps: seq<Step>): seq<Ref>
  {
    if |steps| == 0 then [] else AllStepTargets(steps[..|steps| - 1]) + steps[|steps| - 1].targets
  }

  function MaxTier(a: Tier, b: Tier): Tier
  {
    if Rank(a) >= Rank(b) then a else b
  }

  /** The strictest confirmation that a step asks for. */
  function NeededTier(steps: seq<Step>): Tier
  {
    if |steps| == 0 then Low else MaxTier(NeededTier(steps[..|steps| - 1]), steps[|steps| - 1].descriptor.tier)
  }

  ghost predicate StepSealable(h: Hashes, step: Step, scope: Scope, policy: RestartPolicy)
  {
    && Admissible(step.descriptor, policy)
    && 0 < |step.targets| <= MAX_TARGETS
    && Acceptable(h, CanonSet(step.targets), scope)
  }

  ghost predicate StepsSealable(h: Hashes, steps: seq<Step>, scope: Scope, policy: RestartPolicy)
  {
    forall i :: 0 <= i < |steps| ==> StepSealable(h, steps[i], scope, policy)
  }

  /** Everything but the confirmation is in order; the steps touch exactly the targets of the plan. */
  ghost predicate Coherent(h: Hashes, plan: Plan)
  {
    && plan.id != 0 && 0 < |plan.steps| <= MAX_STEPS && 0 < |plan.targets| <= MAX_TARGETS
    && PayloadValid(plan.recipe)
    && Acceptable(h, CanonSet(plan.targets), plan.scope)
    && StepsSealable(h, plan.steps, plan.scope, plan.restartPolicy)
    && CanonSet(AllStepTargets(plan.steps)) == CanonSet(plan.targets)
  }

  ghost predicate Sealable(h: Hashes, plan: Plan)
  {
    Coherent(h, plan) && ConfirmationSuffices(plan.confirmation, NeededTier(plan.steps))
  }

  ghost function NormalStep(step: Step): Step
  {
    step.(targets := Canonical(step.targets))
  }

  ghost function NormalSteps(steps: seq<Step>): (r: seq<Step>)
    ensures |r| == |steps|
    ensures forall i :: 0 <= i < |steps| ==> r[i] == NormalStep(steps[i])
  {
    if |steps| == 0 then []
    else NormalSteps(steps[..|steps| - 1]) + [NormalStep(steps[|steps| - 1])]
  }

  ghost function Normal(plan: Plan): Plan
  {
    plan.(targets := Canonical(plan.targets), steps := NormalSteps(plan.steps))
  }

  ghost function Sealed(h: Hashes, plan: Plan): Plan
  {
    Normal(plan).(fingerprint := h.digest(BindingOf(Normal(plan))))
  }

  /** Targets are listed canonically already. */
  ghost predicate Listed(plan: Plan)
  {
    && CanonRefs(Canonical(plan.targets)) == CanonRefs(plan.targets)
    && forall i :: 0 <= i < |plan.steps| ==>
         CanonRefs(Canonical(plan.steps[i].targets)) == CanonRefs(plan.steps[i].targets)
  }

  ghost predicate Valid(h: Hashes, plan: Plan)
  {
    Sealable(h, plan) && Listed(plan) && plan.fingerprint == h.digest(BindingOf(Normal(plan)))
  }

  // ----- steps, one at a time -----

  lemma StepsSnoc(steps: seq<Step>, step: Step)
    ensures AllStepTargets(steps + [step]) == AllStepTargets(steps) + step.targets
    ensures NeededTier(steps + [step]) == MaxTier(NeededTier(steps), step.descriptor.tier)
    ensures NormalSteps(steps + [step]) == NormalSteps(steps) + [NormalStep(step)]
  {
    assert (steps + [step])[..|steps|] == steps;
  }

  /** Canonical lists in every step leave the targets of all steps as they are. */
  lemma {:induction false} NormalKeepsTargets(h: Hashes, steps: seq<Step>, scope: Scope, policy: RestartPolicy)
    requires StepsSealable(h, steps, scope, policy)
    ensures CanonSet(AllStepTargets(NormalSteps(steps))) == CanonSet(AllStepTargets(steps))
    ensures NeededTier(NormalSteps(steps)) == NeededTier(steps)
    ensures NormalSteps(NormalSteps(steps)) == NormalSteps(steps)
  {
    if |steps| > 0 {
      hide NormalSteps, AllStepTargets, NeededTier, CanonSet, StepSealable, NormalStep, MaxTier;
      var shorter, last := steps[..|steps| - 1], steps[|steps| - 1];
      assert steps == shorter + [last];
      NormalKeepsTargets(h, shorter, scope, policy);
      NormalStepSealable(h, last, scope, policy);
      StepsSnoc(shorter, last);
      StepsSnoc(NormalSteps(shorter), NormalStep(last));
      CanonSetAdd(AllStepTargets(shorter), last.targets);
      CanonSetAdd(AllStepTargets(NormalSteps(shorter)), NormalStep(last).targets);
    }
  }

  lemma NormalStepSealable(h: Hashes, step: Step, scope: Scope, policy: RestartPolicy)
    requires StepSealable(h, step, scope, policy)
    ensures StepSealable(h, NormalStep(step), scope, policy)
    ensures NormalStep(NormalStep(step)) == NormalStep(step)
    ensures NormalStep(step).descriptor == step.descriptor
    ensures CanonSet(NormalStep(step).targets) == CanonSet(step.targets)
  {
    hide Canonical, Acceptable, Admissible, CanonSet;
    CanonicalKeeps(h, step.targets, scope);
  }

  lemma NormalStepsSealable(h: Hashes, steps: seq<Step>, scope: Scope, policy: RestartPolicy)
    requires StepsSealable(h, steps, scope, policy)
    ensures StepsSealable(h, NormalSteps(steps), scope, policy)
  {
    hide StepSealable, NormalSteps;
    forall i | 0 <= i < |steps| ensures StepSealable(h, NormalSteps(steps)[i], scope, policy) {
      NormalStepSealable(h, steps[i], scope, policy);
      assert NormalSteps(steps)[i] == NormalStep(steps[i]);
    }
  }

  // ----- the operations -----

  class PlanBuffer {
    var plan: Plan

    constructor (plan: Plan)
      ensures this.plan == plan
    {
      this.plan := plan;
    }

    /** Rewrites the target lists in place; on an error the buffer is not used any more. */
    method Normalize(h: Hashes) returns (r: Result<(), Error>)
      modifies this
      ensures r.Ok? <==> Sealable(h, old(plan))
      ensures r.Ok? ==> plan == Normal(old(plan))
      ensures r == Err(InvalidConfirmation) ==> Coherent(h, old(plan))
      ensures r.Err? ==> r.error != FingerprintMismatch
    {
      hide Canonical, CanonSet, Acceptable, Admissible, BoundedText, NeededTier, AllStepTargets, NormalSteps,
           StepSealable;
      ghost var given := plan;
      if plan.id == 0 || |plan.steps| == 0 || |plan.steps| > MAX_STEPS || |plan.targets| == 0
        || |plan.targets| > MAX_TARGETS
      {
        return Err(InvalidPlan);
      }
      if !PayloadValid(plan.recipe) {
        return Err(InvalidReference);
      }
      var targets := CanonicalTargets(h, plan.targets, plan.scope);
      if targets.Err? {
        return Err(targets.error);
      }
      plan := plan.(targets := targets.value);
      var steps := NormalizeSteps(h);
      if steps.Err? {
        return Err(steps.error);
      }
      var (stepTargets, tier) := steps.value;
      var all := CanonicalTargets(h, plan.targets + stepTargets, plan.scope);
      CanonicalKeeps(h, given.targets, given.scope);
      CanonSetAdd(plan.targets, stepTargets);
      NormalKeepsTargets(h, given.steps, given.scope, given.restartPolicy);
      assert CanonSet(given.targets) + CanonSet(given.targets) == CanonSet(given.targets);
      if all.Err? {
        return Err(all.error);
      }
      var listed := CanonicalTargets(h, stepTargets, plan.scope);
      if listed.Err? {
        return Err(listed.error);
      }
      SameListIffSameSet(h, given.targets, stepTargets, plan.scope);
      if CanonRefs(listed.value) != CanonRefs(plan.targets) {
        return Err(InvalidPlan);
      }
      if !ConfirmationSuffices(plan.confirmation, tier) {
        return Err(InvalidConfirmation);
      }
      return Ok(());
    }

    /** The loop over the steps: the targets of all of them, and the tier they need. */
    method NormalizeSteps(h: Hashes) returns (r: Result<(seq<Ref>, Tier), Error>)
      modifies this
      ensures r.Ok? <==> StepsSealable(h, old(plan).steps, old(plan).scope, old(plan).restartPolicy)
      ensures r.Ok? ==>
        && plan == old(plan).(steps := NormalSteps(old(plan).steps))
        && r.value == (AllStepTargets(plan.steps), NeededTier(old(plan).steps))
      ensures r.Err? ==> r.error != InvalidConfirmation && r.error != FingerprintMismatch
    {
      hide NeededTier, StepSealable, StepsSealable, AtStep, NormalSteps, AllStepTargets, MaxTier, Canonical;
      ghost var given := plan;
      var stepTargets: seq<Ref> := [];
      var tier := Low;
      NoSteps(h, given);
      for i := 0 to |plan.steps|
        invariant |plan.steps| == |given.steps| && AtStep(h, given, i, plan, stepTargets, tier)
      {
        NextStep(h, given, i, plan, stepTargets, tier);
        var step := NormalizeStep(h, plan.steps[i], plan.scope, plan.restartPolicy);
        if step.Err? {
          return Err(step.error);
        }
        tier := MaxTier(tier, step.value.descriptor.tier);
        plan := plan.(steps := plan.steps[i := step.value]);
        stepTargets := stepTargets + step.value.targets;
      }
      LastStep(h, given, plan, stepTargets, tier);
      return Ok((stepTargets, tier));
    }

    /** Seals a normalized copy and takes it over; on an error the plan is as it was. */
    method Seal(h: Hashes) returns (r: Result<(), Error>)
      modifies this
      ensures r.Ok? <==> Sealable(h, old(plan))
      ensures plan == if r.Ok? then Sealed(h, old(plan)) else old(plan)
    {
      hide Sealable, Normal, BindingOf;
      var canonical := new PlanBuffer(plan);
      r := canonical.Normalize(h);
      if r.Ok? {
        plan := canonical.plan.(fingerprint := h.digest(BindingOf(canonical.plan)));
      }
    }

    method Validate(h: Hashes) returns (r: Result<(), Error>)
      ensures r.Ok? <==> Valid(h, plan)
      ensures r == Err(FingerprintMismatch) <==> Sealable(h, plan) && Listed(plan) && !Valid(h, plan)
    {
      hide Sealable, BindingOf, NormalSteps, Canonical;
      var canonical := new PlanBuffer(plan);
      r := canonical.Normalize(h);
      if r.Err? {
        return;
      }
      if CanonRefs(canonical.plan.targets) != CanonRefs(plan.targets) ||
         exists i :: 0 <= i < |plan.steps|
           && CanonRefs(canonical.plan.steps[i].targets) != CanonRefs(plan.steps[i].targets)
      {
        return Err(InvalidPlan);
      }
      if h.digest(BindingOf(canonical.plan)) != plan.fingerprint {
        return Err(FingerprintMismatch);
      }
      return Ok(());
    }
  }

  /** One step: an admissible action on targets of the scope, within the limits. */
  method NormalizeStep(h: Hashes, step: Step, scope: Scope, policy: RestartPolicy) returns (r: Result<Step, Error>)
    ensures r.Ok? <==> StepSealable(h, step, scope, policy)
    ensures r.Ok? ==> r.value == NormalStep(step) && r.value.descriptor == step.descriptor
    ensures r.Err? ==> r.error != InvalidConfirmation && r.error != FingerprintMismatch
  {
    hide Canonical, CanonSet, Acceptable, Admissible;
    if !Admissible(step.descriptor, policy) || |step.targets| == 0 || |step.targets| > MAX_TARGETS {
      return Err(InvalidPlan);
    }
    var targets := CanonicalTargets(h, step.targets, scope);
    if targets.Err? {
      return Err(targets.error);
    }
    return Ok(step.(targets := targets.value));
  }

  /** The steps before i are normalized, the others as given. */
  ghost predicate AtStep(h: Hashes, given: Plan, i: nat, plan: Plan, stepTargets: seq<Ref>, tier: Tier)
  {
    && i <= |given.steps|
    && plan == given.(steps := NormalSteps(given.steps[..i]) + given.steps[i..])
    && StepsSealable(h, given.steps[..i], given.scope, given.restartPolicy)
    && stepTargets == AllStepTargets(NormalSteps(given.steps[..i])) && tier == NeededTier(given.steps[..i])
  }

  lemma NoSteps(h: Hashes, plan: Plan)
    ensures AtStep(h, plan, 0, plan, [], Low)
  {
  }

  lemma NextStep(h: Hashes, given: Plan, i: nat, plan: Plan, stepTargets: seq<Ref>, tier: Tier)
    requires i < |given.steps| && AtStep(h, given, i, plan, stepTargets, tier)
    ensures |plan.steps| == |given.steps| && plan.steps[i] == given.steps[i]
    ensures plan.scope == given.scope && plan.restartPolicy == given.restartPolicy
    ensures var step := NormalStep(given.steps[i]);
      StepSealable(h, given.steps[i], given.scope, given.restartPolicy) ==>
        AtStep(h, given, i + 1, plan.(steps := plan.steps[i := step]), stepTargets + step.targets,
          MaxTier(tier, given.steps[i].descriptor.tier))
    ensures !StepSealable(h, given.steps[i], given.scope, given.restartPolicy) ==>
      !StepsSealable(h, given.steps, given.scope, given.restartPolicy)
  {
    hide StepSealable, NormalSteps, AllStepTargets, NeededTier, NormalStep, MaxTier;
    var before, step := given.steps[..i], given.steps[i];
    assert given.steps[..i + 1] == before + [step];
    StepsSnoc(before, step);
    StepsSnoc(NormalSteps(before), NormalStep(step));
    UpdateAt(NormalSteps(before), given.steps[i..], NormalStep(step));
    assert given.steps[i..][1..] == given.steps[i + 1..];
  }

  lemma UpdateAt(done: seq<Step>, rest: seq<Step>, step: Step)
    requires |rest| > 0
    ensures (done + rest)[|done| := step] == (done + [step]) + rest[1..]
  {
  }

  lemma LastStep(h: Hashes, given: Plan, plan: Plan, stepTargets: seq<Ref>, tier: Tier)
    requires AtStep(h, given, |given.steps|, plan, stepTargets, tier)
    ensures plan == given.(steps := NormalSteps(given.steps))
    ensures stepTargets == AllStepTargets(plan.steps) && tier == NeededTier(given.steps)
    ensures StepsSealable(h, given.steps, given.scope, given.restartPolicy)
  {
    hide NormalSteps, AllStepTargets, NeededTier, StepsSealable;
    assert given.steps[..|given.steps|] == given.steps;
    assert given.steps[|given.steps|..] == [];
  }

  /** Two lists have the same canonical list, up to the order of JSON keys, exactly when they have the same
      references. */
  lemma SameListIffSameSet(h: Hashes, a: seq<Ref>, b: seq<Ref>, scope: Scope)
    requires Acceptable(h, CanonSet(a), scope) && Acceptable(h, CanonSet(b), scope)
    ensures CanonRefs(Canonical(a)) == CanonRefs(Canonical(b)) <==> CanonSet(a) == CanonSet(b)
  {
    hide Canonical, CanonSet, Acceptable, CanonRefs;
    CanonicalKeeps(h, a, scope);
    CanonicalKeeps(h, b, scope);
    if CanonSet(a) == CanonSet(b) {
      CanonicalOfSet(h, a, b, scope);
    }
    if CanonRefs(Canonical(a)) == CanonRefs(Canonical(b)) {
      CanonSetOfCanon(Canonical(a), Canonical(b));
    }
  }

  // ----- sealed plans -----

  lemma NormalTwice(h: Hashes, plan: Plan)
    requires Sealable(h, plan)
    ensures Sealable(h, Normal(plan)) && Normal(Normal(plan)) == Normal(plan)
  {
    hide Canonical, CanonSet, Acceptable, NeededTier, AllStepTargets, NormalSteps, StepSealable, PayloadValid,
         StepsSealable;
    CanonicalKeeps(h, plan.targets, plan.scope);
    NormalKeepsTargets(h, plan.steps, plan.scope, plan.restartPolicy);
    NormalStepsSealable(h, plan.steps, plan.scope, plan.restartPolicy);
  }

  /** What `Seal` accepts then validates, and sealing it again changes nothing. */
  lemma SealedIsValid(h: Hashes, plan: Plan)
    requires Sealable(h, plan)
    ensures Valid(h, Sealed(h, plan)) && Sealed(h, Sealed(h, plan)) == Sealed(h, plan)
  {
    NormalTwice(h, plan);
    ListedIffBound(Sealed(h, plan));
    FingerprintIsFree(h, plan);
  }

  lemma FingerprintIsFree(h: Hashes, plan: Plan)
    requires Sealable(h, Normal(plan)) && Normal(Normal(plan)) == Normal(plan)
    ensures Sealable(h, Sealed(h, plan)) && Normal(Sealed(h, plan)) == Sealed(h, plan)
    ensures BindingOf(Sealed(h, plan)) == BindingOf(Normal(plan))
  {
    hide Canonical, CanonSet, Acceptable, NeededTier, AllStepTargets, NormalSteps, StepSealable, PayloadValid,
         StepsSealable;
  }

  /** The lists are canonical exactly when the binding of the plan is that of its canonical form. */
  lemma ListedIffBound(plan: Plan)
    ensures Listed(plan) <==> BindingOf(Normal(plan)) == BindingOf(plan)
  {
    hide Canonical, CanonRefs;
    var normal := Normal(plan);
    forall i | 0 <= i < |plan.steps| ensures normal.steps[i] == NormalStep(plan.steps[i]) {
    }
    if BindingOf(normal) == BindingOf(plan) {
      forall i | 0 <= i < |plan.steps|
        ensures CanonRefs(Canonical(plan.steps[i].targets)) == CanonRefs(plan.steps[i].targets)
      {
        assert CanonSteps(normal.steps)[i] == CanonSteps(plan.steps)[i];
      }
    }
    if Listed(plan) {
      assert CanonSteps(normal.steps) == CanonSteps(plan.steps);
    }
  }

  /** A plan validates exactly when sealing it again would change nothing but the order of JSON keys. */
  lemma ValidIffSealedAlready(h: Hashes, plan: Plan)
    ensures Valid(h, plan) <==>
      && Sealable(h, plan)
      && BindingOf(Sealed(h, plan)) == BindingOf(plan)
      && Sealed(h, plan).fingerprint == plan.fingerprint
  {
    hide Sealable, Listed;
    ListedIffBound(plan);
    assert BindingOf(Sealed(h, plan)) == BindingOf(Normal(plan));
  }

  ghost predicate Injective(digest: Binding -> string)
  {
    forall x, y :: digest(x) == digest(y) ==> x == y
  }

  /** With a digest without collisions valid plans have the same fingerprint exactly when they are the same plan,
      field by field, up to the order of JSON keys. */
  lemma FingerprintBindsPlan(h: Hashes, p: Plan, q: Plan)
    requires Injective(h.digest) && Valid(h, p) && Valid(h, q)
    ensures p.fingerprint == q.fingerprint <==> BindingOf(p) == BindingOf(q)
    ensures ProperPlan(p) && ProperPlan(q) ==> (p.fingerprint == q.fingerprint <==> SamePlan(p, q))
  {
    hide Sealable, Listed, BindingOf, SamePlan, ProperPlan;
    ListedIffBound(p);
    ListedIffBound(q);
    if ProperPlan(p) && ProperPlan(q) {
      BoundIffSame(p, q);
    }
  }

  /** Whatever is edited in a sealed plan, it no longer validates under its old fingerprint. */
  lemma EditedPlanIsRefused(h: Hashes, sealed: Plan, edited: Plan)
    requires Injective(h.digest) && Valid(h, sealed) && ProperPlan(sealed) && ProperPlan(edited)
    requires edited.fingerprint == sealed.fingerprint
    ensures Valid(h, edited) ==> SamePlan(sealed, edited)
  {
    hide Valid, SamePlan, ProperPlan;
    if Valid(h, edited) {
      FingerprintBindsPlan(h, sealed, edited);
    }
  }

  // ----- the order of targets -----

  /** Two drafts that list the same targets, in any order and any number of times. */
  ghost predicate SameDraft(a: Plan, b: Plan)
  {
    && b == a.(targets := b.targets, steps := b.steps, fingerprint := b.fingerprint)
    && |a.steps| == |b.steps|
    && CanonSet(a.targets) == CanonSet(b.targets)
    && forall i :: 0 <= i < |a.steps| ==> SameStep(a.steps[i], b.steps[i])
  }

  ghost predicate SameStep(a: Step, b: Step)
  {
    a.descriptor == b.descriptor && CanonSet(a.targets) == CanonSet(b.targets)
  }

  /** No list is longer than the limits allow. */
  predicate WithinLimits(plan: Plan)
  {
    |plan.targets| <= MAX_TARGETS && forall i :: 0 <= i < |plan.steps| ==> |plan.steps[i].targets| <= MAX_TARGETS
  }

  lemma {:induction false} SameSteps(a: seq<Step>, b: seq<Step>)
    requires |a| == |b| && forall i :: 0 <= i < |a| ==> SameStep(a[i], b[i])
    ensures CanonSet(AllStepTargets(a)) == CanonSet(AllStepTargets(b)) && NeededTier(a) == NeededTier(b)
  {
    hide CanonSet;
    if |a| > 0 {
      var n := |a| - 1;
      SameSteps(a[..n], b[..n]);
      CanonSetAdd(AllStepTargets(a[..n]), a[n].targets);
      CanonSetAdd(AllStepTargets(b[..n]), b[n].targets);
      assert SameStep(a[n], b[n]);
    }
  }

  lemma EmptySet(refs: seq<Ref>)
    ensures CanonSet(refs) == {} <==> refs == []
  {
    assert refs != [] ==> CanonRef(refs[0]) in CanonSet(refs);
  }

  lemma SameDraftCoheres(h: Hashes, a: Plan, b: Plan)
    requires SameDraft(a, b) && WithinLimits(a) && WithinLimits(b)
    ensures Sealable(h, a) ==> Sealable(h, b)
  {
    hide CanonSet, Acceptable, Admissible, PayloadValid, AllStepTargets, NeededTier;
    SameSteps(a.steps, b.steps);
    EmptySet(a.targets);
    EmptySet(b.targets);
    if Sealable(h, a) {
      forall i | 0 <= i < |b.steps| ensures StepSealable(h, b.steps[i], b.scope, b.restartPolicy) {
        assert SameStep(a.steps[i], b.steps[i]);
        assert StepSealable(h, a.steps[i], a.scope, a.restartPolicy);
        EmptySet(a.steps[i].targets);
        EmptySet(b.steps[i].targets);
      }
    }
  }

  /** Within the limits, drafts that list the same targets can both be sealed or neither, and then give
      the same plan up to the order of JSON keys, under the same fingerprint. */
  lemma OrderDoesNotMatter(h: Hashes, a: Plan, b: Plan)
    requires SameDraft(a, b) && WithinLimits(a) && WithinLimits(b)
    ensures Sealable(h, a) <==> Sealable(h, b)
    ensures Sealable(h, a) ==>
      && BindingOf(Sealed(h, a)) == BindingOf(Sealed(h, b))
      && Sealed(h, a).fingerprint == Sealed(h, b).fingerprint
  {
    hide Sealable, WithinLimits;
    SameDraftCoheres(h, a, b);
    SameDraftBack(a, b);
    SameDraftCoheres(h, b, a);
    if Sealable(h, a) {
      SameBinding(h, a, b);
    }
  }

  lemma SameDraftBack(a: Plan, b: Plan)
    requires SameDraft(a, b)
    ensures SameDraft(b, a)
  {
    hide CanonSet;
  }

  lemma SameBinding(h: Hashes, a: Plan, b: Plan)
    requires SameDraft(a, b) && Sealable(h, a)
    ensures BindingOf(Normal(a)) == BindingOf(Normal(b))
    ensures BindingOf(Sealed(h, a)) == BindingOf(Normal(a)) && BindingOf(Sealed(h, b)) == BindingOf(Normal(b))
  {
    hide CanonSet, Canonical, Acceptable, Admissible, PayloadValid, AllStepTargets, NeededTier, CanonRefs, NormalSteps;
    CanonicalOfSet(h, a.targets, b.targets, a.scope);
    var x, y := Normal(a).steps, Normal(b).steps;
    forall i | 0 <= i < |x| ensures CanonSteps(x)[i] == CanonSteps(y)[i] {
      assert SameStep(a.steps[i], b.steps[i]);
      assert StepSealable(h, a.steps[i], a.scope, a.restartPolicy);
      CanonicalOfSet(h, a.steps[i].targets, b.steps[i].targets, a.scope);
    }
    assert CanonSteps(x) == CanonSteps(y);
  }
}
