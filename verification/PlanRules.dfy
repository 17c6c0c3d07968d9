/** What the checks of a plan amount to, in one place and without the helpers that make them: characters by their
    code points, lengths by the bytes of UTF-8 (RFC 3629), limits as numbers. */
module PlanRules {
  import opened CanonicalJson
  import opened Options
  import opened RemediationPlan
  import opened Sealing

  // ----- texts -----

  /** The code points with the property White_Space, one by one. */
  predicate SpaceCode(code: nat)
  {
    code in [
      0x9, 0xA, 0xB, 0xC, 0xD, 0x20, 0x85, 0xA0, 0x1680, 0x2000, 0x2001, 0x2002, 0x2003, 0x2004, 0x2005, 0x2006, 0x2007,
      0x2008, 0x2009, 0x200A, 0x2028, 0x2029, 0x202F, 0x205F, 0x3000]
  }

  lemma WhiteSpaceListed(c: char)
    ensures WhiteSpace(c) <==> SpaceCode(c as nat)
  {
  }

  /** The code points of the category Cc: 32 and then 33 in a row. */
  lemma ControlsListed(c: char)
    ensures Control(c) <==> c as int / 32 == 0 || c as int == 127 || c as int / 32 == 4
  {
  }

  /** The bytes of a code point in UTF-8: a lead byte that tells their number, and six bits in each one after. */
  function Utf8(code: nat): (bytes: seq<nat>)
    requires code < 0x11_0000
  {
    if code <= 127 then [code]
    else if code <= 2047 then [0xC0 + code / 64, 0x80 + code % 64]
    else if code <= 65535 then [0xE0 + code / 4096, 0x80 + code / 64 % 64, 0x80 + code % 64]
    else [0xF0 + code / 262144, 0x80 + code / 4096 % 64, 0x80 + code / 64 % 64, 0x80 + code % 64]
  }

  /** The lead byte and the following bytes give the code point back, and the lead byte the number of bytes. */
  lemma Utf8Decodes(code: nat)
    requires code < 0x11_0000
    ensures var b := Utf8(code);
      && (forall i | 0 <= i < |b| :: b[i] < 256)
      && (forall i | 1 <= i < |b| :: b[i] / 64 == 2)
      && |b| == (if b[0] < 128 then 1 else if b[0] / 32 == 6 then 2 else if b[0] / 16 == 14 then 3 else 4)
      && code == (match |b|
                  case 1 => b[0]
                  case 2 => (b[0] % 32) * 64 + b[1] % 64
                  case 3 => (b[0] % 16) * 4096 + (b[1] % 64) * 64 + b[2] % 64
                  case _ => (b[0] % 8) * 262144 + (b[1] % 64) * 4096 + (b[2] % 64) * 64 + b[3] % 64)
  {
    assert code / 64 == code / 4096 * 64 + code / 64 % 64;
    assert code / 4096 == code / 262144 * 64 + code / 4096 % 64;
  }

  function Utf8Text(text: string): seq<nat>
  {
    if |text| == 0 then [] else Utf8(text[0] as nat) + Utf8Text(text[1..])
  }

  lemma {:induction false} Utf8TextSnoc(text: string, c: char)
    ensures Utf8Text(text + [c]) == Utf8Text(text) + Utf8(c as nat)
  {
    hide Utf8;
    if |text| > 0 {
      Utf8TextSnoc(text[1..], c);
      assert (text + [c])[1..] == text[1..] + [c];
    } else {
      assert Utf8Text([c]) == Utf8(c as nat) + Utf8Text([]);
    }
  }

  lemma {:induction false} Utf8LengthCounts(text: string)
    ensures Utf8Length(text) == |Utf8Text(text)|
  {
    if |text| > 0 {
      var n := |text| - 1;
      Utf8LengthCounts(text[..n]);
      Utf8TextSnoc(text[..n], text[n]);
      assert text == text[..n] + [text[n]];
    }
  }

  /** A text of at most so many bytes, with something to be seen in it and no control character. */
  ghost predicate Readable(text: string, bytes: nat)
  {
    && |Utf8Text(text)| <= bytes
    && (exists c :: c in text && !SpaceCode(c as nat))
    && forall c :: c in text ==> c as int >= 32 && !(127 <= c as int < 160)
  }

  lemma BoundedMeansReadable(text: string, bytes: nat)
    ensures BoundedText(text, bytes) <==> Readable(text, bytes)
  {
    hide SpaceCode, WhiteSpace, Utf8Length, Utf8Text;
    Utf8LengthCounts(text);
    forall c: char ensures WhiteSpace(c) <==> SpaceCode(c as nat) { WhiteSpaceListed(c); }
    if BoundedText(text, bytes) {
      var i :| 0 <= i < |text| && !WhiteSpace(text[i]);
      assert text[i] in text;
    }
    if Readable(text, bytes) {
      var c :| c in text && !SpaceCode(c as nat);
      var i :| 0 <= i < |text| && text[i] == c;
      forall j | 0 <= j < |text| ensures !Control(text[j]) { assert text[j] in text; }
    }
  }

  // ----- references and actions -----

  /** A reference to something of this scope, under the identity derived from what it is. */
  ghost predicate Belongs(h: Hashes, ref: Ref, scope: Scope)
  {
    && ref.scope.provider == scope.provider == ref.resource.provider
    && ref.scope.account == scope.account == ref.resource.account
    && ref.scope.source == scope.source
    && Readable(ref.resource.schema, 128) && Readable(ref.resource.key, 4096) && ref.resource.version != 0
    && ref.id == h.resourceId(
      Name(ref.resource.account, ref.resource.kind, ref.resource.schema, ref.resource.version, ref.resource.key))
  }

  lemma NoErrorMeansBelongs(h: Hashes, ref: Ref, scope: Scope)
    ensures RefError(h, ref, scope).None? <==> Belongs(h, ref, scope)
  {
    hide BoundedText, Readable;
    BoundedMeansReadable(ref.resource.schema, 128);
    BoundedMeansReadable(ref.resource.key, 4096);
  }

  /** The two ways in which it can fail to: not of this scope, or of this scope and not in order. */
  lemma RefErrorKinds(h: Hashes, ref: Ref, scope: Scope)
    ensures RefError(h, ref, scope) == Some(ScopeMismatch) <==>
      !(&& ref.scope.provider == scope.provider == ref.resource.provider
        && ref.scope.account == scope.account == ref.resource.account
        && ref.scope.source == scope.source)
    ensures RefError(h, ref, scope).Some? && RefError(h, ref, scope) != Some(ScopeMismatch) ==>
      RefError(h, ref, scope) == Some(InvalidReference)
  {
    hide BoundedText;
  }

  /** An action that may be taken now; one that is resumed after a restart must be a deletion without cost. */
  ghost predicate MayBeTaken(d: Descriptor, policy: RestartPolicy)
  {
    && Readable(d.id, 128) && d.maxTargets > 0 && d.maxParallel > 0 && d.unavailableReason.None?
    && (d.availability.Executable? || (d.availability.LivePreflightRequired? && d.requiresLivePreflight))
    && (d.effect.ContainerDestroyed? ==> d.tier.Critical? && d.destructive && d.irreversible)
    && (policy.ResumeFrozenTargets? ==>
          && d.kind in {DeleteRemoteItem, RemoveForCurrentAccount}
          && (d.advisory.None? || !d.advisory.value.costBearing))
  }

  lemma AdmissibleMeans(d: Descriptor, policy: RestartPolicy)
    ensures Admissible(d, policy) <==> MayBeTaken(d, policy)
  {
    hide BoundedText, Readable;
    BoundedMeansReadable(d.id, 128);
  }

  /** One tier is as strict as another, in the order Low, Medium, High, Critical. */
  predicate AsStrictAs(a: Tier, b: Tier)
  {
    match b
    case Low => true
    case Medium => !a.Low?
    case High => a.High? || a.Critical?
    case Critical => a.Critical?
  }

  ghost predicate Confirms(c: Confirmation, steps: seq<Step>)
  {
    && c.acknowledgementRequired && c.ownerAuthRequired
    && (forall i | 0 <= i < |steps| :: AsStrictAs(c.tier, steps[i].descriptor.tier))
    && (if c.exactText.Some? then Readable(c.exactText.value, 4096) else c.tier.Low? || c.tier.Medium?)
  }

  lemma {:induction false} StrictestTier(tier: Tier, steps: seq<Step>)
    ensures Rank(tier) >= Rank(NeededTier(steps)) <==>
      forall i | 0 <= i < |steps| :: AsStrictAs(tier, steps[i].descriptor.tier)
  {
    if |steps| > 0 {
      var n := |steps| - 1;
      StrictestTier(tier, steps[..n]);
      assert (forall i | 0 <= i < |steps| :: AsStrictAs(tier, steps[i].descriptor.tier)) <==>
        (forall i | 0 <= i < n :: AsStrictAs(tier, steps[..n][i].descriptor.tier))
        && AsStrictAs(tier, steps[n].descriptor.tier);
    }
  }

  lemma SufficesMeans(c: Confirmation, steps: seq<Step>)
    ensures ConfirmationSuffices(c, NeededTier(steps)) <==> Confirms(c, steps)
  {
    hide BoundedText, Readable, NeededTier, AsStrictAs;
    StrictestTier(c.tier, steps);
    if c.exactText.Some? {
      BoundedMeansReadable(c.exactText.value, 4096);
    }
  }

  // ----- plans -----

  /** One of the references is this one, up to the order of JSON keys. */
  ghost predicate Lists(refs: seq<Ref>, x: Ref)
  {
    exists ref | ref in refs :: CanonRef(ref) == x
  }

  ghost predicate StepsList(steps: seq<Step>, x: Ref)
  {
    exists i | 0 <= i < |steps| :: Lists(steps[i].targets, x)
  }

  /** Everything a plan must satisfy before it is sealed, without the two passes that check it: its targets belong
      to its scope, one identity stands for one thing, and its steps touch all its targets and no others. */
  ghost predicate InOrder(h: Hashes, plan: Plan)
  {
    && plan.id != 0
    && 1 <= |plan.steps| <= 1000 && 1 <= |plan.targets| <= 100000
    && (forall i | 0 <= i < |plan.steps| :: 1 <= |plan.steps[i].targets| <= 100000)
    && (forall i | 0 <= i < |plan.steps| :: MayBeTaken(plan.steps[i].descriptor, plan.restartPolicy))
    && Readable(plan.recipe.schema, 128) && plan.recipe.version != 0
    && Confirms(plan.confirmation, plan.steps)
    && (forall ref | ref in plan.targets :: Belongs(h, ref, plan.scope))
    && (forall a, b | a in plan.targets && b in plan.targets && a.id == b.id :: CanonRef(a) == CanonRef(b))
    && (forall x :: Lists(plan.targets, x) <==> StepsList(plan.steps, x))
  }

  lemma InCanonSet(refs: seq<Ref>, x: Ref)
    ensures x in CanonSet(refs) <==> Lists(refs, x)
  {
    if ref :| ref in refs && CanonRef(ref) == x {
      var i :| 0 <= i < |refs| && refs[i] == ref;
    }
  }

  lemma {:induction false} InStepTargets(steps: seq<Step>, x: Ref)
    ensures x in CanonSet(AllStepTargets(steps)) <==> StepsList(steps, x)
  {
    if |steps| > 0 {
      hide CanonSet, Lists;
      var n := |steps| - 1;
      InStepTargets(steps[..n], x);
      CanonSetAdd(AllStepTargets(steps[..n]), steps[n].targets);
      InCanonSet(steps[n].targets, x);
      assert StepsList(steps, x) <==> StepsList(steps[..n], x) || Lists(steps[n].targets, x) by {
        if i :| 0 <= i < n && Lists(steps[i].targets, x) { assert steps[..n][i] == steps[i]; }
      }
    }
  }

  lemma SameTargets(plan: Plan)
    ensures CanonSet(AllStepTargets(plan.steps)) == CanonSet(plan.targets) <==>
      forall x :: Lists(plan.targets, x) <==> StepsList(plan.steps, x)
  {
    hide CanonSet, AllStepTargets, Lists, StepsList;
    forall x
      ensures x in CanonSet(AllStepTargets(plan.steps)) <==> StepsList(plan.steps, x)
      ensures x in CanonSet(plan.targets) <==> Lists(plan.targets, x)
    {
      InStepTargets(plan.steps, x);
      InCanonSet(plan.targets, x);
    }
  }

  lemma AcceptableMeans(h: Hashes, refs: seq<Ref>, scope: Scope)
    ensures Acceptable(h, CanonSet(refs), scope) <==>
      && (forall ref | ref in refs :: Belongs(h, ref, scope))
      && (forall a, b | a in refs && b in refs && a.id == b.id :: CanonRef(a) == CanonRef(b))
  {
    hide Belongs, RefError, CanonSet;
    forall x ensures x in CanonSet(refs) <==> Lists(refs, x) { InCanonSet(refs, x); }
    forall ref | ref in refs
      ensures CanonRef(ref) in CanonSet(refs) && CanonRef(ref).id == ref.id
      ensures RefError(h, CanonRef(ref), scope).None? <==> Belongs(h, ref, scope)
    {
      RefErrorOfCanon(h, ref, scope);
      NoErrorMeansBelongs(h, ref, scope);
    }
  }

  /** Of the same references some are acceptable when all are. */
  lemma StepWithinPlan(plan: Plan, i: nat)
    requires i < |plan.steps| && forall x :: Lists(plan.targets, x) <==> StepsList(plan.steps, x)
    ensures CanonSet(plan.steps[i].targets) <= CanonSet(plan.targets)
  {
    hide CanonSet, Lists;
    forall x
      ensures x in CanonSet(plan.steps[i].targets) <==> Lists(plan.steps[i].targets, x)
      ensures x in CanonSet(plan.targets) <==> Lists(plan.targets, x)
    {
      InCanonSet(plan.steps[i].targets, x);
      InCanonSet(plan.targets, x);
    }
  }

  lemma StepMeans(h: Hashes, plan: Plan, i: nat)
    requires i < |plan.steps| && Acceptable(h, CanonSet(plan.targets), plan.scope)
    requires forall x :: Lists(plan.targets, x) <==> StepsList(plan.steps, x)
    ensures StepSealable(h, plan.steps[i], plan.scope, plan.restartPolicy) <==>
      && 1 <= |plan.steps[i].targets| <= 100000
      && MayBeTaken(plan.steps[i].descriptor, plan.restartPolicy)
  {
    hide CanonSet, Admissible, MayBeTaken, RefError, Lists, StepsList;
    AdmissibleMeans(plan.steps[i].descriptor, plan.restartPolicy);
    StepWithinPlan(plan, i);
  }

  /** The two passes over a plan accept exactly the plans that are in order. */
  lemma SealableMeans(h: Hashes, plan: Plan)
    ensures Sealable(h, plan) <==> InOrder(h, plan)
  {
    hide CanonSet, AllStepTargets, Belongs, Acceptable, Readable, BoundedText, MayBeTaken, NeededTier, StepSealable,
         ConfirmationSuffices, Confirms, CanonRef, Lists, StepsList;
    BoundedMeansReadable(plan.recipe.schema, 128);
    SufficesMeans(plan.confirmation, plan.steps);
    SameTargets(plan);
    AcceptableMeans(h, plan.targets, plan.scope);
    if Acceptable(h, CanonSet(plan.targets), plan.scope)
       && forall x :: Lists(plan.targets, x) <==> StepsList(plan.steps, x)
    {
      forall i | 0 <= i < |plan.steps|
        ensures StepSealable(h, plan.steps[i], plan.scope, plan.restartPolicy) <==>
          1 <= |plan.steps[i].targets| <= 100000 && MayBeTaken(plan.steps[i].descriptor, plan.restartPolicy)
      {
        StepMeans(h, plan, i);
      }
    }
  }
}
