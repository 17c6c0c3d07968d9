/** The frozen-batch loop against a driver that may answer anything. A run is a script of the
    driver's answers; every prefix of every run is the run of some finite script. */
module FrozenBatches {
  import opened Options

  /** An error with the driver's own verdicts about it. */
  datatype Failure = Failure(retry: bool, fatal: bool, uncertain: bool)

  datatype Reply = Answer(yes: bool) | Fault(error: Failure)

  datatype Progress = Progress(
    next: nat, skipped: nat, deleted: nat, failed: nat, uncertain: nat, error: Option<Failure>, fatal: bool)

  /** Calls on the driver, with the driver's answer. */
  datatype Event<T> =
    | AskedCancelled(reply: Reply)
    | AskedReach(batch: nat, target: T, reply: Reply)
    | Mutated(batch: nat, targets: seq<T>, reply: Reply)
    | Waited(reply: Reply)
    | Reported(progress: Progress, reply: Reply)

  datatype Outcome = Finished(stopped: bool) | Failed(error: Failure)

  /** Which call on the driver comes next, and what the loop remembers until then. */
  datatype Phase<T> =
    | Starting(batch: nat)
    | Reaching(batch: nat, index: nat, allowed: seq<T>, skipped: nat)
    | Checking(batch: nat, allowed: seq<T>, skipped: nat, fault: Option<Failure>)
    | Mutating(batch: nat, allowed: seq<T>, skipped: nat)
    | Waiting(batch: nat)
    | Reporting(batch: nat, progress: Progress)
    | Settling(batch: nat, fatal: bool)
    | Done(outcome: Outcome)

  datatype Machine<T> = Machine(phase: Phase<T>, trace: seq<Event<T>>)

  // ----- one answer at a time -----

  function NextBatch<T>(batches: seq<seq<T>>, batch: nat): Phase<T>
  {
    if batch < |batches| then Starting(batch) else Done(Finished(false))
  }

  function NextTarget<T>(targets: seq<T>, batch: nat, index: nat, allowed: seq<T>, skipped: nat): Phase<T>
  {
    if index < |targets| then Reaching(batch, index, allowed, skipped) else Checking(batch, allowed, skipped, None)
  }

  function SaturatingSub(x: nat, y: nat): nat
  {
    if y > x then 0 else x - y
  }

  /** The progress of an attempt, from its outcome. */
  function ProgressOf<T>(targets: seq<T>, batch: nat, allowed: seq<T>, skipped: nat, reachFailed: bool,
                         fault: Option<Failure>): Progress
  {
    var affected := if reachFailed then SaturatingSub(|targets|, skipped) else |allowed|;
    Progress(batch + 1, skipped,
      if fault.None? then |allowed| else 0,
      if fault.Some? && !fault.value.uncertain then affected else 0,
      if fault.Some? && fault.value.uncertain then affected else 0,
      fault, fault.Some? && fault.value.fatal)
  }

  /** After an attempt's outcome: wait and retry, or report. */
  function AfterOutcome<T>(targets: seq<T>, batch: nat, allowed: seq<T>, skipped: nat, reachFailed: bool,
                           fault: Option<Failure>): Phase<T>
  {
    if fault.Some? && fault.value.retry then Waiting(batch)
    else Reporting(batch, ProgressOf(targets, batch, allowed, skipped, reachFailed, fault))
  }

  function Faulted(reply: Reply): Option<Failure>
  {
    if reply.Fault? then Some(reply.error) else None
  }

  function Advance<T>(batches: seq<seq<T>>, phase: Phase<T>, reply: Reply): Phase<T>
    requires !phase.Done? ==> phase.batch < |batches|
    requires phase.Reaching? ==> phase.index < |batches[phase.batch]|
  {
    match phase
    case Starting(b) =>
      if reply.Fault? then Done(Failed(reply.error))
      else if reply.yes then Done(Finished(true))
      else NextTarget(batches[b], b, 0, [], 0)
    case Reaching(b, i, allowed, skipped) =>
      if reply.Fault? then Checking(b, allowed, skipped, Some(reply.error))
      else if reply.yes then NextTarget(batches[b], b, i + 1, allowed + [batches[b][i]], skipped)
      else NextTarget(batches[b], b, i + 1, allowed, skipped + 1)
    case Checking(b, allowed, skipped, fault) =>
      if reply.Fault? then Done(Failed(reply.error))
      else if reply.yes then Done(Finished(true))
      else if fault.Some? || allowed == [] then AfterOutcome(batches[b], b, allowed, skipped, fault.Some?, fault)
      else Mutating(b, allowed, skipped)
    case Mutating(b, allowed, skipped) => AfterOutcome(batches[b], b, allowed, skipped, false, Faulted(reply))
    case Waiting(b) =>
      if reply.Fault? then Done(Failed(reply.error))
      else if reply.yes then Done(Finished(true))
      else Starting(b)
    case Reporting(b, progress) =>
      if reply.Fault? then Done(Failed(reply.error)) else Settling(b, progress.fatal)
    case Settling(b, fatal) =>
      if reply.Fault? then Done(Failed(reply.error))
      else if reply.yes || fatal then Done(Finished(true))
      else NextBatch(batches, b + 1)
    case Done(outcome) => phase
  }

  /** The call that a phase makes. */
  function Call<T>(batches: seq<seq<T>>, phase: Phase<T>, reply: Reply): Event<T>
    requires !phase.Done? && phase.batch < |batches|
    requires phase.Reaching? ==> phase.index < |batches[phase.batch]|
  {
    match phase
    case Reaching(b, i, _, _) => AskedReach(b, batches[b][i], reply)
    case Mutating(b, allowed, _) => Mutated(b, allowed, reply)
    case Waiting(_) => Waited(reply)
    case Reporting(_, progress) => Reported(progress, reply)
    case _ => AskedCancelled(reply)
  }

  predicate InRange<T>(batches: seq<seq<T>>, phase: Phase<T>)
  {
    && (!phase.Done? ==> phase.batch < |batches|)
    && (phase.Reaching? ==> phase.index < |batches[phase.batch]|)
  }

  function Step<T>(batches: seq<seq<T>>, m: Machine<T>, reply: Reply): Machine<T>
    requires InRange(batches, m.phase)
  {
    if m.phase.Done? then m
    else Machine(Advance(batches, m.phase, reply), m.trace + [Call(batches, m.phase, reply)])
  }

  /** The loop from batch `next` on, after a script of answers. */
  function Run<T>(batches: seq<seq<T>>, next: nat, script: seq<Reply>): (m: Machine<T>)
    ensures InRange(batches, m.phase)
  {
    if |script| == 0 then Machine(NextBatch(batches, next), [])
    else Step(batches, Run(batches, next, script[..|script| - 1]), script[|script| - 1])
  }

  // ----- the loop of the source -----

  class Driver<T> {
    const script: seq<Reply>
    var position: nat
    var trace: seq<Event<T>>

    constructor (script: seq<Reply>)
      ensures this.script == script && position == 0 && trace == []
    {
      this.script := script;
      position, trace := 0, [];
    }

    /** The next answer, or none while the call is still pending. */
    method Take() returns (r: Option<Reply>)
      requires position <= |script|
      modifies this`position
      ensures r.None? ==> position == old(position) == |script|
      ensures r.Some? ==> old(position) < |script| && position == old(position) + 1 && r.value == script[old(position)]
    {
      if position == |script| {
        return None;
      }
      r := Some(script[position]);
      position := position + 1;
    }

    method Cancelled() returns (r: Option<Reply>)
      requires position <= |script|
      modifies this
      ensures r.None? ==> position == old(position) == |script| && trace == old(trace)
      ensures r.Some? ==> old(position) < |script| && position == old(position) + 1 && r.value == script[old(position)]
      ensures r.Some? ==> trace == old(trace) + [AskedCancelled(r.value)]
    {
      r := Take();
      if r.Some? {
        trace := trace + [AskedCancelled(r.value)];
      }
    }

    method Reach(batch: nat, target: T) returns (r: Option<Reply>)
      requires position <= |script|
      modifies this
      ensures r.None? ==> position == old(position) == |script| && trace == old(trace)
      ensures r.Some? ==> old(position) < |script| && position == old(position) + 1 && r.value == script[old(position)]
      ensures r.Some? ==> trace == old(trace) + [AskedReach(batch, target, r.value)]
    {
      r := Take();
      if r.Some? {
        trace := trace + [AskedReach(batch, target, r.value)];
      }
    }

    method Mutate(batch: nat, targets: seq<T>) returns (r: Option<Reply>)
      requires position <= |script|
      modifies this
      ensures r.None? ==> position == old(position) == |script| && trace == old(trace)
      ensures r.Some? ==> old(position) < |script| && position == old(position) + 1 && r.value == script[old(position)]
      ensures r.Some? ==> trace == old(trace) + [Mutated(batch, targets, r.value)]
    {
      r := Take();
      if r.Some? {
        trace := trace + [Mutated(batch, targets, r.value)];
      }
    }

    method Wait() returns (r: Option<Reply>)
      requires position <= |script|
      modifies this
      ensures r.None? ==> position == old(position) == |script| && trace == old(trace)
      ensures r.Some? ==> old(position) < |script| && position == old(position) + 1 && r.value == script[old(position)]
      ensures r.Some? ==> trace == old(trace) + [Waited(r.value)]
    {
      r := Take();
      if r.Some? {
        trace := trace + [Waited(r.value)];
      }
    }

    method Report(progress: Progress) returns (r: Option<Reply>)
      requires position <= |script|
      modifies this
      ensures r.None? ==> position == old(position) == |script| && trace == old(trace)
      ensures r.Some? ==> old(position) < |script| && position == old(position) + 1 && r.value == script[old(position)]
      ensures r.Some? ==> trace == old(trace) + [Reported(progress, r.value)]
    {
      r := Take();
      if r.Some? {
        trace := trace + [Reported(progress, r.value)];
      }
    }

    /** The machine is in a phase after the answers given so far. */
    ghost predicate At(batches: seq<seq<T>>, next: nat, phase: Phase<T>)
      reads this
    {
      position <= |script| && Run(batches, next, script[..position]) == Machine(phase, trace)
    }
  }

  /** One more answer is one more step. */
  lemma RunExtends<T>(batches: seq<seq<T>>, next: nat, script: seq<Reply>, p: nat)
    ensures p < |script| ==>
      Run(batches, next, script[..p + 1]) == Step(batches, Run(batches, next, script[..p]), script[p])
  {
    if p < |script| {
      assert script[..p + 1][..p] == script[..p];
    }
  }

  lemma {:induction false} DoneStays<T>(batches: seq<seq<T>>, next: nat, script: seq<Reply>, p: nat)
    requires p <= |script|
    ensures Run(batches, next, script[..p]).phase.Done? ==>
      Run(batches, next, script) == Run(batches, next, script[..p])
    decreases |script|
  {
    if p == |script| {
      assert script[..p] == script;
    } else {
      var shorter := script[..|script| - 1];
      assert shorter[..p] == script[..p];
      DoneStays(batches, next, shorter, p);
    }
  }

  /** What the loop returns; nothing yet while a call is pending. */
  function Returned<T>(m: Machine<T>): Option<Outcome>
  {
    if m.phase.Done? then Some(m.phase.outcome) else None
  }

  /** The loop has returned this. */
  ghost predicate Ended<T>(driver: Driver<T>, batches: seq<seq<T>>, next: nat, outcome: Option<Outcome>)
    reads driver
  {
    && driver.trace == Run(batches, next, driver.script).trace
    && outcome == Returned(Run(batches, next, driver.script))
  }

  lemma EndsHere<T>(driver: Driver<T>, batches: seq<seq<T>>, next: nat, phase: Phase<T>)
    requires driver.At(batches, next, phase)
    ensures phase.Done? ==> Ended(driver, batches, next, Some(phase.outcome))
    ensures driver.position == |driver.script| && !phase.Done? ==> Ended(driver, batches, next, None)
  {
    hide Run;
    DoneStays(batches, next, driver.script, driver.position);
    assert driver.position == |driver.script| ==> driver.script[..driver.position] == driver.script;
  }

  /** Asks for every target of the batch in turn, up to the first error. */
  method Preflight<T>(driver: Driver<T>, batches: seq<seq<T>>, next: nat, b: nat)
    returns (pending: bool, allowed: seq<T>, skipped: nat, fault: Option<Failure>)
    requires b < |batches| && driver.At(batches, next, NextTarget(batches[b], b, 0, [], 0))
    modifies driver
    ensures old(driver.position) <= driver.position
    ensures pending ==> Ended(driver, batches, next, None)
    ensures !pending ==> driver.At(batches, next, Checking(b, allowed, skipped, fault))
  {
    hide Run;
    var targets := batches[b];
    allowed, skipped, fault := [], 0, None;
    for index := 0 to |targets|
      invariant fault == None && old(driver.position) <= driver.position
      invariant driver.At(batches, next, NextTarget(targets, b, index, allowed, skipped))
    {
      RunExtends(batches, next, driver.script, driver.position);
      EndsHere(driver, batches, next, Reaching(b, index, allowed, skipped));
      var reached := driver.Reach(b, targets[index]);
      match reached
      case None =>
        return true, allowed, skipped, None;
      case Some(Answer(yes)) =>
        if yes {
          allowed := allowed + [targets[index]];
        } else {
          skipped := skipped + 1;
        }
      case Some(Fault(error)) =>
        return false, allowed, skipped, Some(error);
    }
    return false, allowed, skipped, None;
  }

  /** Asks whether to stop. */
  method Continue<T>(driver: Driver<T>, batches: seq<seq<T>>, next: nat, phase: Phase<T>)
    returns (stopped: bool, outcome: Option<Outcome>)
    requires phase.Starting? || phase.Checking? || phase.Settling?
    requires InRange(batches, phase) && driver.At(batches, next, phase)
    modifies driver
    ensures stopped ==> Ended(driver, batches, next, outcome)
    ensures !stopped ==> old(driver.position) < driver.position
    ensures !stopped ==> driver.At(batches, next, Advance(batches, phase, Answer(false)))
  {
    hide Run;
    RunExtends(batches, next, driver.script, driver.position);
    EndsHere(driver, batches, next, phase);
    var cancelled := driver.Cancelled();
    match cancelled
    case None =>
      return true, None;
    case Some(Fault(error)) =>
      EndsHere(driver, batches, next, Done(Failed(error)));
      return true, Some(Failed(error));
    case Some(Answer(yes)) =>
      if yes {
        EndsHere(driver, batches, next, Done(Finished(true)));
        return true, Some(Finished(true));
      }
      return false, None;
  }

  /** Waits before the next pass over the same batch. */
  method Pause<T>(driver: Driver<T>, batches: seq<seq<T>>, next: nat, b: nat)
    returns (stopped: bool, outcome: Option<Outcome>)
    requires b < |batches| && driver.At(batches, next, Waiting(b))
    modifies driver
    ensures stopped ==> Ended(driver, batches, next, outcome)
    ensures !stopped ==> old(driver.position) < driver.position && driver.At(batches, next, Starting(b))
  {
    hide Run;
    RunExtends(batches, next, driver.script, driver.position);
    EndsHere(driver, batches, next, Waiting(b));
    var waited := driver.Wait();
    match waited
    case None =>
      return true, None;
    case Some(Fault(error)) =>
      EndsHere(driver, batches, next, Done(Failed(error)));
      return true, Some(Failed(error));
    case Some(Answer(yes)) =>
      if yes {
        EndsHere(driver, batches, next, Done(Finished(true)));
        return true, Some(Finished(true));
      }
      return false, None;
  }

  /** Reports an attempt and decides whether to go on to the next batch. */
  method Conclude<T>(driver: Driver<T>, batches: seq<seq<T>>, next: nat, b: nat, progress: Progress)
    returns (stopped: bool, outcome: Option<Outcome>)
    requires b < |batches| && driver.At(batches, next, Reporting(b, progress))
    modifies driver
    ensures stopped ==> Ended(driver, batches, next, outcome)
    ensures !stopped ==> old(driver.position) < driver.position && driver.At(batches, next, NextBatch(batches, b + 1))
  {
    hide Run;
    RunExtends(batches, next, driver.script, driver.position);
    EndsHere(driver, batches, next, Reporting(b, progress));
    var reported := driver.Report(progress);
    if reported.None? {
      return true, None;
    }
    if reported.value.Fault? {
      EndsHere(driver, batches, next, Done(Failed(reported.value.error)));
      return true, Some(Failed(reported.value.error));
    }
    stopped, outcome := Continue(driver, batches, next, Settling(b, progress.fatal));
    if !stopped && progress.fatal {
      EndsHere(driver, batches, next, Done(Finished(true)));
      return true, Some(Finished(true));
    }
  }

  /** The mutation of an attempt, when there is something to mutate. */
  method Apply<T>(driver: Driver<T>, batches: seq<seq<T>>, next: nat, b: nat, allowed: seq<T>, skipped: nat,
                  reachError: Option<Failure>)
    returns (pending: bool, fault: Option<Failure>)
    requires b < |batches|
    requires driver.At(batches, next, Advance(batches, Checking(b, allowed, skipped, reachError), Answer(false)))
    modifies driver
    ensures old(driver.position) <= driver.position
    ensures pending ==> Ended(driver, batches, next, None)
    ensures !pending ==>
      driver.At(batches, next, AfterOutcome(batches[b], b, allowed, skipped, reachError.Some?, fault))
  {
    hide Run;
    if reachError.Some? || allowed == [] {
      return false, reachError;
    }
    RunExtends(batches, next, driver.script, driver.position);
    EndsHere(driver, batches, next, Mutating(b, allowed, skipped));
    var mutated := driver.Mutate(b, allowed);
    if mutated.None? {
      return true, None;
    }
    return false, Faulted(mutated.value);
  }

  /** One pass of the retry loop. */
  method Attempt<T>(driver: Driver<T>, batches: seq<seq<T>>, next: nat, b: nat)
    returns (again: bool, stopped: bool, outcome: Option<Outcome>)
    requires b < |batches| && driver.At(batches, next, Starting(b))
    modifies driver
    ensures stopped ==> Ended(driver, batches, next, outcome)
    ensures !stopped ==> old(driver.position) < driver.position
    ensures !stopped ==> driver.At(batches, next, if again then Starting(b) else NextBatch(batches, b + 1))
  {
    hide Run, Ended;
    var targets := batches[b];
    stopped, outcome := Continue(driver, batches, next, Starting(b));
    if stopped {
      return false, true, outcome;
    }
    var pending, allowed, skipped, reachError := Preflight(driver, batches, next, b);
    if pending {
      return false, true, None;
    }
    stopped, outcome := Continue(driver, batches, next, Checking(b, allowed, skipped, reachError));
    if stopped {
      return false, true, outcome;
    }
    var affected := if reachError.Some? then SaturatingSub(|targets|, skipped) else |allowed|;
    var fault: Option<Failure>;
    pending, fault := Apply(driver, batches, next, b, allowed, skipped, reachError);
    if pending {
      return false, true, None;
    }
    if fault.Some? && fault.value.retry {
      stopped, outcome := Pause(driver, batches, next, b);
      return true, stopped, outcome;
    }
    var uncertain := fault.Some? && fault.value.uncertain;
    var progress := Progress(
      b + 1, skipped, if fault.None? then |allowed| else 0, if fault.Some? && !uncertain then affected else 0,
      if uncertain then affected else 0, fault, fault.Some? && fault.value.fatal);
    stopped, outcome := Conclude(driver, batches, next, b, progress);
    again := false;
  }

  /** The nested loops refine the machine. */
  method RunFrozenBatches<T>(driver: Driver<T>, batches: seq<seq<T>>, next: nat) returns (outcome: Option<Outcome>)
    requires driver.position == 0 && driver.trace == []
    modifies driver
    ensures driver.trace == Run(batches, next, driver.script).trace
    ensures outcome == Returned(Run(batches, next, driver.script))
  {
    var index := next;
    while index < |batches|
      invariant driver.At(batches, next, NextBatch(batches, index))
    {
      var again := true;
      while again
        invariant driver.At(batches, next, if again then Starting(index) else NextBatch(batches, index + 1))
        decreases |driver.script| - driver.position, again
      {
        var stopped: bool;
        again, stopped, outcome := Attempt(driver, batches, next, index);
        if stopped {
          return;
        }
      }
      index := index + 1;
    }
    EndsHere(driver, batches, next, Done(Finished(false)));
    return Some(Finished(false));
  }
}
