/** What every run of the frozen-batch loop keeps, whatever the driver answers. */
module FrozenRuns {
  import opened Options
  import opened FrozenBatches

  // ----- every mutated target was granted in the same attempt -----

  /** The first answers of a preflight over these targets, none of them an error. */
  ghost predicate Answers<T>(targets: seq<T>, batch: nat, events: seq<Event<T>>)
  {
    && |events| <= |targets|
    && forall i :: 0 <= i < |events| ==>
         events[i].AskedReach? && events[i] == AskedReach(batch, targets[i], events[i].reply) && events[i].reply.Answer?
  }

  /** The targets answered with yes, in order. */
  function Granted<T>(events: seq<Event<T>>): (r: seq<T>)
    ensures |r| <= |events|
  {
    if |events| == 0 then []
    else
      var before, last := Granted(events[..|events| - 1]), events[|events| - 1];
      if last.AskedReach? && last.reply == Answer(true) then before + [last.target] else before
  }

  /** The trace ends with a cancellation check answered no and then the first `count` answers. */
  ghost predicate Asked<T>(targets: seq<T>, batch: nat, count: nat, trace: seq<Event<T>>)
  {
    && count < |trace|
    && trace[|trace| - count - 1] == AskedCancelled(Answer(false))
    && Answers(targets, batch, trace[|trace| - count..])
  }

  /** The targets granted by the last `count` answers. */
  function GrantedLast<T>(trace: seq<Event<T>>, count: nat): seq<T>
    requires count <= |trace|
  {
    Granted(trace[|trace| - count..])
  }

  /** A mutation after this trace may take exactly these targets. */
  ghost predicate Cleared<T>(targets: seq<T>, batch: nat, allowed: seq<T>, trace: seq<Event<T>>)
  {
    && |trace| > 0
    && trace[|trace| - 1] == AskedCancelled(Answer(false))
    && Asked(targets, batch, |targets|, trace[..|trace| - 1])
    && allowed == GrantedLast(trace[..|trace| - 1], |targets|)
  }

  ghost predicate Remembers<T>(batches: seq<seq<T>>, m: Machine<T>)
    requires InRange(batches, m.phase)
  {
    match m.phase
    case Starting(b) => true
    case Reaching(b, i, allowed, skipped) =>
      && Asked(batches[b], b, i, m.trace)
      && allowed == GrantedLast(m.trace, i)
      && |allowed| + skipped == i
    case Checking(b, allowed, skipped, fault) =>
      if fault.None? then
        && Asked(batches[b], b, |batches[b]|, m.trace)
        && allowed == GrantedLast(m.trace, |batches[b]|)
        && |allowed| + skipped == |batches[b]|
      else |allowed| + skipped < |batches[b]| && PreflightFailed(batches[b], b, fault.value, skipped, m.trace)
    case Mutating(b, allowed, skipped) =>
      && Cleared(batches[b], b, allowed, m.trace)
      && |allowed| + skipped == |batches[b]|
      && allowed != []
    case Reporting(b, progress) =>
      && progress.next == b + 1
      && Accounts(progress, |batches[b]|)
      && Reflects(progress, batches[b], b, m.trace)
    case _ => true
  }

  /** Every target of the batch is in exactly one of the four counts. */
  predicate Accounts(progress: Progress, size: nat)
  {
    progress.skipped + progress.deleted + progress.failed + progress.uncertain == size
  }

  /** The trace ends with an error about one of the targets, after answers about the ones before it, of which
      this many were no. */
  ghost predicate PreflightFailed<T>(targets: seq<T>, batch: nat, error: Failure, skipped: nat, trace: seq<Event<T>>)
  {
    |trace| > 0 && exists i :: 0 <= i < |targets| && FailedAt(targets, batch, i, error, skipped, trace)
  }

  ghost predicate FailedAt<T>(targets: seq<T>, batch: nat, i: nat, error: Failure, skipped: nat, trace: seq<Event<T>>)
    requires i < |targets| && |trace| > 0
  {
    var before := trace[..|trace| - 1];
    && trace[|trace| - 1] == AskedReach(batch, targets[i], Fault(error))
    && Asked(targets, batch, i, before) && |GrantedLast(before, i)| + skipped == i
  }

  /** What a report says is how the attempt before it ended: a mutation that worked or failed, a preflight that
      failed, or nothing to mutate. */
  ghost predicate Reflects<T>(progress: Progress, targets: seq<T>, batch: nat, trace: seq<Event<T>>)
  {
    && |trace| > 0
    && (progress.error.Some? ==>
          && !progress.error.value.retry && progress.fatal == progress.error.value.fatal
          && progress.deleted == 0
          && (if progress.error.value.uncertain then progress.failed else progress.uncertain) == 0)
    && (progress.error.None? ==> !progress.fatal && progress.failed == 0 && progress.uncertain == 0)
    && match trace[|trace| - 1]
       case Mutated(_, mutated, reply) =>
         && progress.error == Faulted(reply) && progress.skipped == |targets| - |mutated|
         && (progress.error.None? ==> progress.deleted == |mutated|)
       case _ =>
         && trace[|trace| - 1] == AskedCancelled(Answer(false))
         && if progress.error.None? then progress.skipped == |targets|
            else PreflightFailed(targets, batch, progress.error.value, progress.skipped, trace[..|trace| - 1])
  }

  lemma AskedNone<T>(targets: seq<T>, batch: nat, trace: seq<Event<T>>)
    ensures Asked(targets, batch, 0, trace + [AskedCancelled(Answer(false))])
    ensures GrantedLast(trace + [AskedCancelled(Answer(false))], 0) == []
  {
  }

  lemma AskedMore<T>(targets: seq<T>, batch: nat, i: nat, trace: seq<Event<T>>, yes: bool)
    requires i < |targets| && Asked(targets, batch, i, trace)
    ensures var longer := trace + [AskedReach(batch, targets[i], Answer(yes))];
      && Asked(targets, batch, i + 1, longer)
      && GrantedLast(longer, i + 1) == GrantedLast(trace, i) + (if yes then [targets[i]] else [])
  {
    var event := AskedReach(batch, targets[i], Answer(yes));
    var longer := trace + [event];
    assert longer[|longer| - (i + 1)..] == trace[|trace| - i..] + [event];
    assert longer[|longer| - (i + 1)..][..i] == trace[|trace| - i..];
  }

  lemma ClearedAfter<T>(targets: seq<T>, batch: nat, trace: seq<Event<T>>)
    requires Asked(targets, batch, |targets|, trace)
    ensures Cleared(targets, batch, GrantedLast(trace, |targets|), trace + [AskedCancelled(Answer(false))])
  {
    assert (trace + [AskedCancelled(Answer(false))])[..|trace|] == trace;
  }

  /** The counts of an attempt add up, and reflect how it ended. */
  lemma OutcomeAccounts<T>(targets: seq<T>, b: nat, allowed: seq<T>, skipped: nat, reachFailed: bool,
                           fault: Option<Failure>, trace: seq<Event<T>>)
    requires |trace| > 0 && EndedBy(targets, b, allowed, skipped, reachFailed, fault, trace)
    requires fault.Some? ==> !fault.value.retry
    ensures var progress := ProgressOf(targets, b, allowed, skipped, reachFailed, fault);
      progress.next == b + 1 && Accounts(progress, |targets|) && Reflects(progress, targets, b, trace)
  {
    hide PreflightFailed;
  }

  /** The last calls of an attempt before its report. */
  ghost predicate EndedBy<T>(targets: seq<T>, b: nat, allowed: seq<T>, skipped: nat, reachFailed: bool,
                             fault: Option<Failure>, trace: seq<Event<T>>)
    requires |trace| > 0
  {
    && (if reachFailed then |allowed| + skipped < |targets| else |allowed| + skipped == |targets|)
    && match trace[|trace| - 1]
       case Mutated(_, mutated, reply) => !reachFailed && mutated == allowed && fault == Faulted(reply)
       case _ =>
         && trace[|trace| - 1] == AskedCancelled(Answer(false))
         && if reachFailed then fault.Some? && PreflightFailed(targets, b, fault.value, skipped, trace[..|trace| - 1])
            else fault.None? && allowed == []
  }

  lemma RemembersStep<T>(batches: seq<seq<T>>, m: Machine<T>, reply: Reply)
    requires InRange(batches, m.phase) && Remembers(batches, m)
    ensures Remembers(batches, Step(batches, m, reply))
  {
    hide GrantedLast, Granted, Answers, Cleared, ProgressOf, Accounts, Reflects, PreflightFailed, Asked;
    match m.phase
    case Starting(b) =>
      AskedNone(batches[b], b, m.trace);
    case Reaching(b, i, allowed, skipped) =>
      if reply.Answer? {
        AskedMore(batches[b], b, i, m.trace, reply.yes);
      } else {
        FailsNow(batches[b], b, i, reply.error, skipped, m.trace);
      }
    case Checking(b, allowed, skipped, fault) =>
      CheckedStep(batches, m, reply);
    case Mutating(b, allowed, skipped) =>
      if reply.Fault? ==> !reply.error.retry {
        OutcomeAccounts(batches[b], b, allowed, skipped, false, Faulted(reply), m.trace + [Mutated(b, allowed, reply)]);
      }
    case _ =>
  }

  lemma CheckedStep<T>(batches: seq<seq<T>>, m: Machine<T>, reply: Reply)
    requires InRange(batches, m.phase) && Remembers(batches, m) && m.phase.Checking?
    ensures Remembers(batches, Step(batches, m, reply))
  {
    hide GrantedLast, Granted, Answers, Cleared, ProgressOf, Accounts, Reflects, PreflightFailed;
    var b, fault := m.phase.batch, m.phase.fault;
    var trace := m.trace + [AskedCancelled(reply)];
    assert trace[..|trace| - 1] == m.trace;
    if fault.None? {
      ClearedAfter(batches[b], b, m.trace);
    }
    if reply == Answer(false) && (if fault.Some? then !fault.value.retry else m.phase.allowed == []) {
      OutcomeAccounts(batches[b], b, m.phase.allowed, m.phase.skipped, fault.Some?, fault, trace);
    }
  }

  lemma FailsNow<T>(targets: seq<T>, b: nat, i: nat, error: Failure, skipped: nat, trace: seq<Event<T>>)
    requires i < |targets| && Asked(targets, b, i, trace) && |GrantedLast(trace, i)| + skipped == i
    ensures PreflightFailed(targets, b, error, skipped, trace + [AskedReach(b, targets[i], Fault(error))])
  {
    hide GrantedLast, Asked;
    var longer := trace + [AskedReach(b, targets[i], Fault(error))];
    assert longer[..|longer| - 1] == trace;
    assert FailedAt(targets, b, i, error, skipped, longer);
  }

  lemma {:induction false} RunRemembers<T>(batches: seq<seq<T>>, next: nat, script: seq<Reply>)
    ensures Remembers(batches, Run(batches, next, script))
  {
    hide Remembers;
    if |script| == 0 {
      RemembersStart(batches, next);
    } else {
      RunRemembers(batches, next, script[..|script| - 1]);
      RemembersStep(batches, Run(batches, next, script[..|script| - 1]), script[|script| - 1]);
    }
  }

  lemma RemembersStart<T>(batches: seq<seq<T>>, next: nat)
    ensures Remembers(batches, Run(batches, next, []))
  {
  }

  /** Every event of a run is the call of the phase reached by the answers before it. */
  lemma {:induction false} EventAt<T>(batches: seq<seq<T>>, next: nat, script: seq<Reply>, k: nat)
    requires k < |Run(batches, next, script).trace|
    ensures k < |script|
    ensures var m, after := Run(batches, next, script[..k]), Run(batches, next, script);
      && !m.phase.Done? && m.trace == after.trace[..k]
      && after.trace[k] == Call(batches, m.phase, script[k])
      && Run(batches, next, script[..k + 1]) == Step(batches, m, script[k])
  {
    hide Call, Advance;
    var shorter := script[..|script| - 1];
    var before := Run(batches, next, shorter);
    TraceLength(batches, next, shorter);
    if k < |before.trace| {
      EventAt(batches, next, shorter, k);
      assert shorter[..k] == script[..k] && shorter[..k + 1] == script[..k + 1];
    } else {
      assert script[..k] == shorter && script[..k + 1] == script;
    }
  }

  /** Until the loop has returned, every answer is an event. */
  lemma {:induction false} TraceLength<T>(batches: seq<seq<T>>, next: nat, script: seq<Reply>)
    ensures var m := Run(batches, next, script);
      |m.trace| <= |script| && (!m.phase.Done? ==> |m.trace| == |script|)
  {
    hide Call, Advance;
    if |script| > 0 {
      TraceLength(batches, next, script[..|script| - 1]);
    }
  }

  /** Only targets granted after the last cancellation check but one are mutated, and all of those. */
  lemma MutatesOnlyGranted<T>(batches: seq<seq<T>>, next: nat, script: seq<Reply>, k: nat)
    requires k < |Run(batches, next, script).trace| && Run(batches, next, script).trace[k].Mutated?
    ensures var trace := Run(batches, next, script).trace;
      && trace[k].batch < |batches|
      && Cleared(batches[trace[k].batch], trace[k].batch, trace[k].targets, trace[..k])
      && trace[k].targets != []
  {
    hide Run, Cleared;
    EventAt(batches, next, script, k);
    RunRemembers(batches, next, script[..k]);
  }

  /** The granted targets are the ones answered with yes, in the order of the batch. */
  lemma {:induction false} GrantedExactly<T>(targets: seq<T>, batch: nat, events: seq<Event<T>>)
    requires Answers(targets, batch, events)
    ensures forall x :: x in Granted(events) <==>
      exists i :: 0 <= i < |events| && events[i].reply.yes && targets[i] == x
  {
    if |events| > 0 {
      var before, n := events[..|events| - 1], |events| - 1;
      GrantedExactly(targets, batch, before);
      forall x ensures x in Granted(events) <==> exists i :: 0 <= i < |events| && events[i].reply.yes && targets[i] == x
      {
        if i :| 0 <= i < |events| && events[i].reply.yes && targets[i] == x {
          assert i < n ==> before[i].reply.yes;
        }
      }
    }
  }

  /** Every report accounts for every target of its batch, and says how its attempt ended. */
  lemma ReportsAccount<T>(batches: seq<seq<T>>, next: nat, script: seq<Reply>, k: nat)
    requires k < |Run(batches, next, script).trace| && Run(batches, next, script).trace[k].Reported?
    ensures var trace := Run(batches, next, script).trace;
      var progress := trace[k].progress; var b := progress.next - 1;
      && 0 <= b < |batches|
      && Accounts(progress, |batches[b]|)
      && Reflects(progress, batches[b], b, trace[..k])
  {
    hide Run, Accounts, Reflects;
    EventAt(batches, next, script, k);
    RunRemembers(batches, next, script[..k]);
  }

  // ----- the cursor -----

  function Reports<T>(trace: seq<Event<T>>): nat
  {
    if |trace| == 0 then 0
    else Reports(trace[..|trace| - 1]) + (if trace[|trace| - 1].Reported? then 1 else 0)
  }

  /** All targets that the reports of a trace account for. */
  function Accounted<T>(trace: seq<Event<T>>): nat
  {
    if |trace| == 0 then 0
    else
      var last := trace[|trace| - 1];
      Accounted(trace[..|trace| - 1]) +
      (if last.Reported? then
         last.progress.skipped + last.progress.deleted + last.progress.failed + last.progress.uncertain
       else 0)
  }

  function Sizes<T>(batches: seq<seq<T>>): nat
  {
    if |batches| == 0 then 0 else Sizes(batches[..|batches| - 1]) + |batches[|batches| - 1]|
  }

  /** The batches reported so far. */
  ghost predicate Cursor<T>(batches: seq<seq<T>>, next: nat, m: Machine<T>)
  {
    var reported := next + Reports(m.trace);
    && (reported <= |batches| || m.trace == [])
    && (match m.phase
        case Done(Finished(false)) => reported >= |batches|
        case Done(_) => true
        case Settling(b, _) => b + 1 == reported
        case _ => m.phase.batch == reported)
    && (next <= |batches| ==> Accounted(m.trace) == Sizes(batches[..reported]) - Sizes(batches[..next]))
  }

  lemma SizesGrow<T>(batches: seq<seq<T>>, b: nat)
    requires b < |batches|
    ensures Sizes(batches[..b + 1]) == Sizes(batches[..b]) + |batches[b]|
  {
    assert batches[..b + 1][..b] == batches[..b];
  }

  lemma CursorStep<T>(batches: seq<seq<T>>, next: nat, m: Machine<T>, reply: Reply)
    requires InRange(batches, m.phase) && Remembers(batches, m) && Cursor(batches, next, m)
    ensures Cursor(batches, next, Step(batches, m, reply))
  {
    hide Sizes, Cleared, Asked, GrantedLast, Reflects;
    if !m.phase.Done? {
      SizesGrow(batches, m.phase.batch);
      assert Step(batches, m, reply).trace[..|m.trace|] == m.trace;
    }
  }

  lemma {:induction false} RunCursor<T>(batches: seq<seq<T>>, next: nat, script: seq<Reply>)
    ensures Cursor(batches, next, Run(batches, next, script))
  {
    if |script| > 0 {
      hide Cursor, Remembers;
      RunCursor(batches, next, script[..|script| - 1]);
      RunRemembers(batches, next, script[..|script| - 1]);
      CursorStep(batches, next, Run(batches, next, script[..|script| - 1]), script[|script| - 1]);
    }
  }

  /** The m-th report moves the cursor to next + m: by exactly one per batch, whatever was retried. */
  lemma CursorAdvancesByOne<T>(batches: seq<seq<T>>, next: nat, script: seq<Reply>, k: nat)
    requires k < |Run(batches, next, script).trace| && Run(batches, next, script).trace[k].Reported?
    ensures var trace := Run(batches, next, script).trace;
      trace[k].progress.next == next + Reports(trace[..k]) + 1
  {
    hide Run, Accounted, Sizes, Reports, Reflects;
    EventAt(batches, next, script, k);
    RunCursor(batches, next, script[..k]);
    RunRemembers(batches, next, script[..k]);
  }

  /** A run that ends without stopping has reported every batch and accounted for every target once. */
  lemma CompleteRunAccountsForAll<T>(batches: seq<seq<T>>, next: nat, script: seq<Reply>)
    requires next <= |batches|
    ensures var m := Run(batches, next, script);
      m.phase == Done(Finished(false)) ==>
        && Reports(m.trace) == |batches| - next
        && Accounted(m.trace) == Sizes(batches) - Sizes(batches[..next])
  {
    hide Run, Accounted, Sizes;
    RunCursor(batches, next, script);
    assert batches[..|batches|] == batches;
  }

  // ----- what follows what -----

  /** An attempt ended with this error: its mutation failed, or its preflight did and the run is not cancelled. */
  ghost predicate EndsWith<T>(trace: seq<Event<T>>, error: Failure)
  {
    && |trace| > 0
    && var last := trace[|trace| - 1];
       || (last.Mutated? && last.reply == Fault(error))
       || (last == AskedCancelled(Answer(false)) && |trace| > 1
           && trace[|trace| - 2].AskedReach? && trace[|trace| - 2].reply == Fault(error))
  }

  /** The last event is the last step. */
  lemma {:induction false} LastStep<T>(batches: seq<seq<T>>, next: nat, script: seq<Reply>)
    ensures var m := Run(batches, next, script); var k := |m.trace| - 1;
      if k < 0 then m == Run(batches, next, [])
      else k < |script| && m == Step(batches, Run(batches, next, script[..k]), script[k])
  {
    hide Call, Advance;
    if |script| > 0 {
      var shorter := script[..|script| - 1];
      LastStep(batches, next, shorter);
      TraceLength(batches, next, shorter);
      var before := Run(batches, next, shorter);
      if before.phase.Done? && |before.trace| > 0 {
        assert shorter[..|before.trace| - 1] == script[..|before.trace| - 1];
      }
    }
  }

  /** One step after an error, from each phase that can meet it. */
  lemma FailureStep<T>(batches: seq<seq<T>>, phase: Phase<T>, reply: Reply, error: Failure)
    requires InRange(batches, phase) && !phase.Done?
    ensures var event, after := Call(batches, phase, reply), Advance(batches, phase, reply);
      && (event.AskedReach? && reply == Fault(error) ==> after.Checking? && after.fault == Some(error))
      && (event.AskedReach? && reply.Answer? ==> after.Reaching? || (after.Checking? && after.fault.None?))
      && ((event.Mutated? && reply == Fault(error))
          || (phase.Checking? && phase.fault == Some(error) && reply == Answer(false)) ==>
            if error.retry then after.Waiting? else after.Reporting? && after.progress.error == Some(error))
      && (phase.Checking? && phase.fault.None? && reply == Answer(false) ==>
            if phase.allowed == []
              then after.Reporting? else after == Mutating(phase.batch, phase.allowed, phase.skipped))
  {
  }

  /** The phase after an attempt that ended with an error. */
  lemma PhaseAfterFailure<T>(batches: seq<seq<T>>, next: nat, script: seq<Reply>, error: Failure)
    requires EndsWith(Run(batches, next, script).trace, error)
    ensures var phase := Run(batches, next, script).phase;
      if error.retry then phase.Waiting? else phase.Reporting? && phase.progress.error == Some(error)
  {
    hide Run, Call, Advance;
    var m := Run(batches, next, script);
    var k := |m.trace| - 1;
    LastStep(batches, next, script);
    EventAt(batches, next, script, k);
    FailureStep(batches, Run(batches, next, script[..k]).phase, script[k], error);
    RepliesAre(batches, next, script, k);
    if m.trace[k].AskedCancelled? {
      EventAt(batches, next, script, k - 1);
      RepliesAre(batches, next, script, k - 1);
      FailureStep(batches, Run(batches, next, script[..k - 1]).phase, script[k - 1], error);
    }
  }

  /** The answers are those of the script, and a call tells the phase. */
  lemma RepliesAre<T>(batches: seq<seq<T>>, next: nat, script: seq<Reply>, k: nat)
    requires k < |Run(batches, next, script).trace|
    ensures k < |script|
    ensures var event, phase := Run(batches, next, script).trace[k], Run(batches, next, script[..k]).phase;
      && event.reply == script[k] && !phase.Done?
      && (event.AskedReach? <==> phase.Reaching?) && (event.Mutated? <==> phase.Mutating?)
      && (event.Waited? <==> phase.Waiting?) && (event.Reported? <==> phase.Reporting?)
      && (event.AskedCancelled? <==> phase.Starting? || phase.Checking? || phase.Settling?)
      && (event.Reported? ==> event.progress == phase.progress)
      && (event.Mutated? ==> event.targets == phase.allowed)
  {
    hide Run;
    EventAt(batches, next, script, k);
  }

  /** An error with a retry, of a preflight or of a mutation, is always waited out; one without is always
      reported. Nothing else happens, and the loop does not end there. */
  lemma FailuresAreRetried<T>(batches: seq<seq<T>>, next: nat, script: seq<Reply>, k: nat, error: Failure)
    requires k <= |Run(batches, next, script).trace| && EndsWith(Run(batches, next, script).trace[..k], error)
    ensures var m := Run(batches, next, script);
      if k == |m.trace| then !m.phase.Done?
      else if error.retry then m.trace[k].Waited?
      else m.trace[k].Reported? && m.trace[k].progress.error == Some(error)
  {
    hide Run, EndsWith, Call, Advance;
    var m := Run(batches, next, script);
    if k < |m.trace| {
      EventAt(batches, next, script, k);
      RepliesAre(batches, next, script, k);
      PhaseAfterFailure(batches, next, script[..k], error);
    } else {
      assert m.trace[..k] == m.trace;
      PhaseAfterFailure(batches, next, script, error);
    }
  }

  /** Only an error with a retry is waited out. */
  lemma WaitsOnlyToRetry<T>(batches: seq<seq<T>>, next: nat, script: seq<Reply>, k: nat)
    requires k < |Run(batches, next, script).trace| && Run(batches, next, script).trace[k].Waited?
    ensures exists error: Failure :: error.retry && EndsWith(Run(batches, next, script).trace[..k], error)
  {
    hide Run;
    EventAt(batches, next, script, k);
    NotWaitingFirst(batches, next, script[..k]);
    EventAt(batches, next, script, k - 1);
    var trace := Run(batches, next, script).trace[..k];
    var before := Run(batches, next, script[..k - 1]);
    if before.phase.Checking? {
      RunRemembers(batches, next, script[..k - 1]);
      FaultIsLast(batches, before);
      assert EndsWith(trace, before.phase.fault.value);
    } else {
      assert EndsWith(trace, script[k - 1].error);
    }
  }

  lemma NotWaitingFirst<T>(batches: seq<seq<T>>, next: nat, script: seq<Reply>)
    ensures Run(batches, next, script).phase.Waiting? ==> |script| > 0
  {
  }

  lemma FaultIsLast<T>(batches: seq<seq<T>>, m: Machine<T>)
    requires InRange(batches, m.phase) && Remembers(batches, m) && m.phase.Checking? && m.phase.fault.Some?
    ensures |m.trace| > 0 && m.trace[|m.trace| - 1].AskedReach?
      && m.trace[|m.trace| - 1].reply == Fault(m.phase.fault.value)
  {
  }

  /** Every target asked about and every batch mutated is of the batch that the next report is for. */
  lemma BatchIsCursor<T>(batches: seq<seq<T>>, next: nat, script: seq<Reply>, k: nat)
    requires k < |Run(batches, next, script).trace|
    ensures var trace := Run(batches, next, script).trace;
      (trace[k].AskedReach? || trace[k].Mutated? ==> trace[k].batch == next + Reports(trace[..k]) < |batches|)
  {
    hide Run, Accounted, Sizes, Reports;
    EventAt(batches, next, script, k);
    RunCursor(batches, next, script[..k]);
  }

  /** A pass over a batch begins with a cancellation check answered no: first of all, after a wait, or after the
      check that follows a report. */
  ghost predicate PassBegins<T>(trace: seq<Event<T>>)
  {
    var n := |trace|;
    && n > 0 && trace[n - 1] == AskedCancelled(Answer(false))
    && (n == 1 || trace[n - 2] == Waited(Answer(false))
        || (n > 2 && trace[n - 2] == AskedCancelled(Answer(false)) && trace[n - 3].Reported?))
  }

  lemma PassPhase<T>(batches: seq<seq<T>>, next: nat, script: seq<Reply>, k: nat)
    requires k < |Run(batches, next, script).trace| && PassBegins(Run(batches, next, script).trace[..k])
    ensures 0 < k <= |script|
    ensures Run(batches, next, script[..k - 1]).phase.Starting?
  {
    hide Run;
    EventAt(batches, next, script, k - 1);
    if k == 1 {
      FirstPhase(batches, next, script[..0]);
    } else {
      EventAt(batches, next, script, k - 2);
      if k > 2 {
        EventAt(batches, next, script, k - 3);
      }
    }
  }

  lemma FirstPhase<T>(batches: seq<seq<T>>, next: nat, script: seq<Reply>)
    requires |script| == 0
    ensures Run(batches, next, script).phase.Starting? || Run(batches, next, script).phase.Done?
  {
  }

  /** Then the targets of the batch are asked about from the first one on. */
  lemma PassAsksFirst<T>(batches: seq<seq<T>>, next: nat, script: seq<Reply>, k: nat)
    requires k < |Run(batches, next, script).trace| && PassBegins(Run(batches, next, script).trace[..k])
    ensures var trace := Run(batches, next, script).trace;
      var b := next + Reports(trace[..k]);
      && b < |batches|
      && if batches[b] == [] then trace[k].AskedCancelled?
         else trace[k].AskedReach? && trace[k].batch == b && trace[k].target == batches[b][0]
  {
    hide Run, Accounted, Sizes, Reports, PassBegins;
    PassPhase(batches, next, script, k);
    assert k > 0 by { BeginsLater(Run(batches, next, script).trace[..k]); }
    EventAt(batches, next, script, k - 1);
    assert script[k - 1] == Answer(false) by { BeginsLater(Run(batches, next, script).trace[..k]); }
    EventAt(batches, next, script, k);
    RunCursor(batches, next, script[..k]);
  }

  lemma BeginsLater<T>(trace: seq<Event<T>>)
    requires PassBegins(trace)
    ensures |trace| > 0 && trace[|trace| - 1].reply == Answer(false)
  {
  }

  /** The question at this place of a trace is the i-th of its pass, and what comes next. */
  ghost predicate InTurn<T>(targets: seq<T>, b: nat, i: nat, trace: seq<Event<T>>, k: nat)
    requires k + 1 < |trace| && i < |targets|
  {
    && trace[k] == AskedReach(b, targets[i], trace[k].reply)
    && Asked(targets, b, i, trace[..k])
    && if trace[k].reply.Answer? && i + 1 < |targets|
       then trace[k + 1] == AskedReach(b, targets[i + 1], trace[k + 1].reply)
       else trace[k + 1].AskedCancelled?
  }

  /** The targets are asked about in turn; an error ends the questions, and so does the last target. */
  lemma AskedInTurn<T>(batches: seq<seq<T>>, next: nat, script: seq<Reply>, k: nat)
    requires k + 1 < |Run(batches, next, script).trace| && Run(batches, next, script).trace[k].AskedReach?
    ensures var trace := Run(batches, next, script).trace;
      && trace[k].batch < |batches|
      && exists i :: 0 <= i < |batches[trace[k].batch]| && InTurn(batches[trace[k].batch], trace[k].batch, i, trace, k)
  {
    hide Run, GrantedLast;
    EventAt(batches, next, script, k);
    EventAt(batches, next, script, k + 1);
    RunRemembers(batches, next, script[..k]);
    var m := Run(batches, next, script[..k]);
    assert InTurn(batches[m.phase.batch], m.phase.batch, m.phase.index, Run(batches, next, script).trace, k);
  }

  /** What a full preflight granted is mutated, unless it is nothing: then the attempt is reported. */
  lemma GrantedAreMutated<T>(batches: seq<seq<T>>, next: nat, script: seq<Reply>, k: nat)
    requires 0 < k < |Run(batches, next, script).trace|
    ensures var trace := Run(batches, next, script).trace; var b := next + Reports(trace[..k]);
      b < |batches| && |batches[b]| > 0
      && trace[k - 1] == AskedCancelled(Answer(false)) && Asked(batches[b], b, |batches[b]|, trace[..k - 1]) ==>
        var granted := GrantedLast(trace[..k - 1], |batches[b]|);
        if granted == [] then trace[k].Reported? else trace[k].Mutated? && trace[k].targets == granted
  {
    hide Run, Accounted, Sizes, Reports, GrantedLast, Call, Advance;
    var trace := Run(batches, next, script).trace;
    var b := next + Reports(trace[..k]);
    if b < |batches| && |batches[b]| > 0 && trace[k - 1] == AskedCancelled(Answer(false))
       && Asked(batches[b], b, |batches[b]|, trace[..k - 1]) {
      assert trace[..k - 1][|trace[..k - 1]| - |batches[b]|..][|batches[b]| - 1] == trace[k - 2];
      GrantedPhase(batches, next, script, k, b);
      EventAt(batches, next, script, k);
      RepliesAre(batches, next, script, k);
      EventAt(batches, next, script, k - 1);
      RepliesAre(batches, next, script, k - 1);
      RunRemembers(batches, next, script[..k - 1]);
      FailureStep(batches, Run(batches, next, script[..k - 1]).phase, script[k - 1], Failure(true, true, true));
    }
  }

  /** After the question about the last target, answered, the phase is the check before the mutation. */
  lemma GrantedPhase<T>(batches: seq<seq<T>>, next: nat, script: seq<Reply>, k: nat, b: nat)
    requires 1 < k < |Run(batches, next, script).trace| && b == next + Reports(Run(batches, next, script).trace[..k])
    requires var trace := Run(batches, next, script).trace;
      trace[k - 1] == AskedCancelled(Answer(false)) && trace[k - 2].AskedReach? && trace[k - 2].reply.Answer?
    ensures k <= |script|
    ensures var phase := Run(batches, next, script[..k - 1]).phase;
      phase.Checking? && phase.fault.None? && phase.batch == b
  {
    hide Run, Accounted, Sizes, Reports, Call, Advance;
    EventAt(batches, next, script, k - 1);
    RepliesAre(batches, next, script, k - 1);
    EventAt(batches, next, script, k - 2);
    RepliesAre(batches, next, script, k - 2);
    FailureStep(batches, Run(batches, next, script[..k - 2]).phase, script[k - 2], Failure(true, true, true));
    RunCursor(batches, next, script[..k - 1]);
    NoReport(Run(batches, next, script).trace, k - 1);
  }

  lemma NoReport<T>(trace: seq<Event<T>>, k: nat)
    requires k < |trace| && !trace[k].Reported?
    ensures Reports(trace[..k + 1]) == Reports(trace[..k])
  {
    assert trace[..k + 1][..k] == trace[..k];
  }

  /** When the loop returns, and what: an error that it passes on, a stop that was asked for or is due to a fatal
      report, or the end of the batches. */
  ghost predicate Returns<T>(batches: seq<seq<T>>, next: nat, trace: seq<Event<T>>, outcome: Outcome)
  {
    var n := |trace|;
    match outcome
    case Failed(error) =>
      n > 0 && trace[n - 1].reply == Fault(error)
      && (trace[n - 1].AskedCancelled? || trace[n - 1].Waited? || trace[n - 1].Reported?)
    case Finished(true) =>
      n > 0 && (trace[n - 1].AskedCancelled? || trace[n - 1].Waited?)
      && (trace[n - 1].reply == Answer(true)
          || (trace[n - 1] == AskedCancelled(Answer(false)) && n > 1 && trace[n - 2].Reported?
            && trace[n - 2].progress.fatal))
    case Finished(false) =>
      if n == 0 then next >= |batches|
      else trace[n - 1] == AskedCancelled(Answer(false)) && n > 1 && trace[n - 2].Reported?
           && !trace[n - 2].progress.fatal && trace[n - 2].progress.next == |batches|
  }

  lemma ReturnsExactly<T>(batches: seq<seq<T>>, next: nat, script: seq<Reply>)
    ensures var m := Run(batches, next, script);
      m.phase.Done? ==> Returns(batches, next, m.trace, m.phase.outcome)
  {
    hide Run, Call, Advance, Remembers;
    var m := Run(batches, next, script);
    var k := |m.trace| - 1;
    LastStep(batches, next, script);
    if k < 0 {
      FirstPhaseDone(batches, next);
    } else {
      EventAt(batches, next, script, k);
      RepliesAre(batches, next, script, k);
      if m.phase.Done? {
        ReturnStep(batches, Run(batches, next, script[..k]).phase, script[k]);
        if Run(batches, next, script[..k]).phase.Settling? {
          SettlesAfterReport(batches, next, script, k);
        }
      }
    }
  }

  /** The step that ends the loop. */
  lemma ReturnStep<T>(batches: seq<seq<T>>, phase: Phase<T>, reply: Reply)
    requires InRange(batches, phase) && !phase.Done? && Advance(batches, phase, reply).Done?
    ensures var settled := phase.Settling? && reply == Answer(false);
      match Advance(batches, phase, reply).outcome
      case Failed(error) => reply == Fault(error) && !phase.Reaching? && !phase.Mutating?
      case Finished(true) =>
        !phase.Reaching? && !phase.Mutating? && !phase.Reporting? && (reply == Answer(true) || (settled && phase.fatal))
      case Finished(false) => settled && !phase.fatal && phase.batch + 1 == |batches|
  {
  }

  lemma SettlesAfterReport<T>(batches: seq<seq<T>>, next: nat, script: seq<Reply>, k: nat)
    requires k < |Run(batches, next, script).trace| && k < |script| && Run(batches, next, script[..k]).phase.Settling?
    ensures k > 0
    ensures var settling, trace := Run(batches, next, script[..k]).phase, Run(batches, next, script).trace;
      trace[k - 1].Reported? && trace[k - 1].progress.fatal == settling.fatal
      && trace[k - 1].progress.next == settling.batch + 1
  {
    hide Run, Call, Advance;
    EventAt(batches, next, script, k);
    NotSettlingFirst(batches, next, script[..k]);
    EventAt(batches, next, script, k - 1);
    RepliesAre(batches, next, script, k - 1);
    SettlingStep(batches, Run(batches, next, script[..k - 1]).phase, script[k - 1]);
    RunRemembers(batches, next, script[..k - 1]);
  }

  lemma NotSettlingFirst<T>(batches: seq<seq<T>>, next: nat, script: seq<Reply>)
    ensures Run(batches, next, script).phase.Settling? ==> |script| > 0
  {
  }

  lemma SettlingStep<T>(batches: seq<seq<T>>, phase: Phase<T>, reply: Reply)
    requires InRange(batches, phase) && !phase.Done? && Advance(batches, phase, reply).Settling?
    ensures phase.Reporting? && Advance(batches, phase, reply) == Settling(phase.batch, phase.progress.fatal)
  {
  }

  lemma FirstPhaseDone<T>(batches: seq<seq<T>>, next: nat)
    ensures var phase := Run(batches, next, []).phase;
      if next < |batches| then !phase.Done? else phase == Done(Finished(false))
  {
  }

  // ----- when the loop stops -----

  /** Answers after which the loop returns at once. */
  predicate Halts<T>(event: Event<T>)
  {
    match event
    case AskedCancelled(reply) => reply != Answer(false)
    case Waited(reply) => reply != Answer(false)
    case Reported(_, reply) => reply.Fault?
    case _ => false
  }

  /** Nothing follows an observed cancellation, nor an error that the loop passes on. */
  lemma NothingAfterHalt<T>(batches: seq<seq<T>>, next: nat, script: seq<Reply>, k: nat)
    requires k < |Run(batches, next, script).trace|
    ensures var m := Run(batches, next, script);
      Halts(m.trace[k]) ==> k == |m.trace| - 1 && m.phase.Done?
  {
    hide Run;
    EventAt(batches, next, script, k);
    DoneStays(batches, next, script, k + 1);
  }

  /** After this phase no mutation is called. */
  predicate Doomed<T>(phase: Phase<T>)
  {
    match phase
    case Checking(_, _, _, fault) => fault.Some? && fault.value.fatal && !fault.value.retry
    case Reporting(_, progress) => progress.fatal
    case Settling(_, fatal) => fatal
    case Done(_) => true
    case _ => false
  }

  lemma {:induction false} DoomedStays<T>(batches: seq<seq<T>>, next: nat, script: seq<Reply>, p: nat)
    requires p <= |script| && Doomed(Run(batches, next, script[..p]).phase)
    ensures Doomed(Run(batches, next, script).phase)
    decreases |script|
  {
    if p == |script| {
      assert script[..p] == script;
    } else {
      var shorter := script[..|script| - 1];
      assert shorter[..p] == script[..p];
      DoomedStays(batches, next, shorter, p);
    }
  }

  /** No mutation follows a fatal error that is not retried. */
  lemma NoMutationAfterFatal<T>(batches: seq<seq<T>>, next: nat, script: seq<Reply>, j: nat, k: nat)
    requires j < k < |Run(batches, next, script).trace|
    ensures var trace := Run(batches, next, script).trace;
      trace[j].reply.Fault? && trace[j].reply.error.fatal && !trace[j].reply.error.retry ==> !trace[k].Mutated?
  {
    hide Run;
    EventAt(batches, next, script, j);
    EventAt(batches, next, script, k);
    var error := script[j];
    if error.Fault? && error.error.fatal && !error.error.retry {
      assert Doomed(Run(batches, next, script[..j + 1]).phase);
      assert script[..k][..j + 1] == script[..j + 1];
      DoomedStays(batches, next, script[..k], j + 1);
    }
  }

  /** A reported fatal result is followed by at most one more call, a cancellation check. */
  lemma FatalReportEnds<T>(batches: seq<seq<T>>, next: nat, script: seq<Reply>, k: nat)
    requires k < |Run(batches, next, script).trace|
    ensures var trace := Run(batches, next, script).trace;
      trace[k].Reported? && trace[k].progress.fatal ==>
        |trace| <= k + 2 && (k + 1 < |trace| ==> trace[k + 1].AskedCancelled?)
  {
    hide Run;
    var m := Run(batches, next, script);
    EventAt(batches, next, script, k);
    if k + 1 < |m.trace| {
      EventAt(batches, next, script, k + 1);
      DoneStays(batches, next, script, k + 2);
    }
  }

  // ----- a batch succeeds at most once -----

  /** A batch already mutated with success is behind, or about to be reported. */
  ghost predicate Behind<T>(event: Event<T>, phase: Phase<T>)
  {
    event.Mutated? && event.reply.Answer? && !phase.Done? ==>
      event.batch < phase.batch || (event.batch == phase.batch && (phase.Reporting? || phase.Settling?))
  }

  ghost predicate AllBehind<T>(m: Machine<T>)
  {
    forall j :: 0 <= j < |m.trace| ==> Behind(m.trace[j], m.phase)
  }

  lemma {:induction false} SuccessesAreBehind<T>(batches: seq<seq<T>>, next: nat, script: seq<Reply>)
    ensures AllBehind(Run(batches, next, script))
  {
    hide Behind;
    if |script| > 0 {
      var before, after := Run(batches, next, script[..|script| - 1]), Run(batches, next, script);
      SuccessesAreBehind(batches, next, script[..|script| - 1]);
      forall j | 0 <= j < |after.trace|
        ensures Behind(after.trace[j], after.phase)
      {
        if j < |before.trace| {
          StaysBehind(batches, before.phase, before.trace[j], script[|script| - 1]);
        } else {
          NowBehind(batches, before.phase, script[|script| - 1]);
        }
      }
    }
  }

  lemma NowBehind<T>(batches: seq<seq<T>>, phase: Phase<T>, reply: Reply)
    requires InRange(batches, phase) && !phase.Done?
    ensures Behind(Call(batches, phase, reply), Advance(batches, phase, reply))
  {
  }

  lemma StaysBehind<T>(batches: seq<seq<T>>, phase: Phase<T>, event: Event<T>, reply: Reply)
    requires InRange(batches, phase) && Behind(event, phase)
    ensures Behind(event, Advance(batches, phase, reply))
  {
  }

  /** After a batch was mutated with success only later batches are mutated. */
  lemma SucceedsAtMostOnce<T>(batches: seq<seq<T>>, next: nat, script: seq<Reply>, j: nat, k: nat)
    requires j < k < |Run(batches, next, script).trace|
    ensures var trace := Run(batches, next, script).trace;
      trace[j].Mutated? && trace[j].reply.Answer? && trace[k].Mutated? ==> trace[j].batch < trace[k].batch
  {
    hide Run;
    EventAt(batches, next, script, k);
    SuccessesAreBehind(batches, next, script[..k]);
  }

  // ----- uncertainty -----

  /** Some run mutates again after a target's check or a mutation ended with this error. */
  ghost predicate MutatesAfter(batches: seq<seq<nat>>, next: nat, script: seq<Reply>, j: nat, k: nat, error: Failure)
  {
    var trace := Run(batches, next, script).trace;
    && j < k < |trace|
    && (trace[j].AskedReach? || trace[j].Mutated?) && trace[j].reply == Fault(error)
    && trace[k].Mutated?
  }

  ghost predicate AlwaysStopsOn(error: Failure)
  {
    forall batches, next, script, j, k :: !MutatesAfter(batches, next, script, j, k, error)
  }

  /** The loop never looks at uncertainty: it stops mutating after an error, an uncertain one too,
      exactly when the driver calls the error fatal and offers no retry. */
  lemma StopsExactlyOnFatal(error: Failure)
    ensures AlwaysStopsOn(error) <==> error.fatal && !error.retry
  {
    forall batches, next, script, j: nat, k: nat | error.fatal && !error.retry
      ensures !MutatesAfter(batches, next, script, j, k, error)
    {
      hide Run;
      if j < k < |Run(batches, next, script).trace| {
        NoMutationAfterFatal(batches, next, script, j, k);
      }
    }
    if error.retry {
      RetryGoesOn(error);
    } else if !error.fatal {
      NextBatchGoesOn(error);
    }
  }

  /** A single batch of one target: the error hits its mutation, which is then retried. */
  lemma RetryGoesOn(error: Failure)
    requires error.retry
    ensures !AlwaysStopsOn(error)
  {
    hide Run;
    var batches, no := [[0]], Answer(false);
    StartsEmpty(batches);
    var s3 := Preflighted(batches, [], 0);
    var s4 := Leads(batches, s3, Fault(error), Mutating(0, [0], 0));
    var s5 := Leads(batches, s4, no, Waiting(0));
    var s8 := Preflighted(batches, s5, 0);
    var script := Leads(batches, s8, no, Mutating(0, [0], 0));
    Shows(batches, script, s3, s8, error);
  }

  /** Two batches of one target: the error hits the first, and the second is mutated all the same. */
  lemma NextBatchGoesOn(error: Failure)
    requires !error.fatal && !error.retry
    ensures !AlwaysStopsOn(error)
  {
    hide Run;
    var batches, no := [[0], [0]], Answer(false);
    StartsEmpty(batches);
    var s3 := Preflighted(batches, [], 0);
    var s4 := Leads(batches, s3, Fault(error), Mutating(0, [0], 0));
    var s5 := Leads(batches, s4, no, Run(batches, 0, s4).phase);
    var s6 := Leads(batches, s5, no, Settling(0, false));
    var s9 := Preflighted(batches, s6, 1);
    var script := Leads(batches, s9, no, Mutating(1, [0], 0));
    Shows(batches, script, s3, s9, error);
  }

  lemma StartsEmpty<T>(batches: seq<seq<T>>)
    ensures Run(batches, 0, []).phase == NextBatch(batches, 0)
  {
  }

  /** One more answer, in the phase reached so far. */
  lemma Leads<T>(batches: seq<seq<T>>, s: seq<Reply>, reply: Reply, phase: Phase<T>) returns (longer: seq<Reply>)
    requires Run(batches, 0, s).phase == phase
    ensures longer == s + [reply] && longer[..|s|] == s
    ensures InRange(batches, phase) && Run(batches, 0, longer).phase == Advance(batches, phase, reply)
  {
    longer := s + [reply];
  }

  /** Not cancelled, the one target granted, not cancelled. */
  lemma Preflighted(batches: seq<seq<nat>>, s: seq<Reply>, b: nat) returns (longer: seq<Reply>)
    requires b < |batches| && batches[b] == [0]
    requires Run(batches, 0, s).phase == Starting(b)
    ensures longer == s + [Answer(false), Answer(true), Answer(false)]
    ensures Run(batches, 0, longer).phase == Mutating(b, [0], 0)
  {
    hide Run;
    var s1 := Leads(batches, s, Answer(false), Starting(b));
    var s2 := Leads(batches, s1, Answer(true), Reaching(b, 0, [], 0));
    longer := Leads(batches, s2, Answer(false), Checking(b, [0], 0, None));
  }

  lemma Shows(batches: seq<seq<nat>>, script: seq<Reply>, first: seq<Reply>, second: seq<Reply>, error: Failure)
    requires |first| < |second| < |script|
    requires first == script[..|first|] && second == script[..|second|] && script[|first|] == Fault(error)
    requires Run(batches, 0, first).phase.Mutating? && Run(batches, 0, second).phase.Mutating?
    requires !Run(batches, 0, script).phase.Done?
    ensures !AlwaysStopsOn(error)
  {
    hide Run;
    TraceLength(batches, 0, script);
    EventAt(batches, 0, script, |first|);
    EventAt(batches, 0, script, |second|);
    assert MutatesAfter(batches, 0, script, |first|, |second|, error);
  }
}
