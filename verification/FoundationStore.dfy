/** The encrypted store of a profile: write a candidate, read it back, rename it over the active file and
    sync the directory, with a failure possible at every step and a crash between any two. */
module FoundationStore {
  import opened Options

  /** The contents of a file: an authentic current state, an authentic legacy one, or anything else. */
  datatype Blob<S> = V3(state: S) | Legacy(content: nat) | Junk(content: nat)

  type Slot<S> = Option<Blob<S>>

  /** The three files, what the active file and the backup may turn out to hold after a crash, and whether
      the contents of the backup, if there is one, are durable. */
  datatype Disk<S(==)> = Disk(
    active: Slot<S>, candidate: Slot<S>, backup: Slot<S>,
    activeAfterCrash: set<Slot<S>>, backupAfterCrash: set<Slot<S>>, backupSynced: bool)

  /** What the store is told about states: validation, the parts that never change, and migration. */
  datatype Rules<!S, !P> = Rules(accepts: S -> bool, provenance: S -> P, migrate: nat -> Option<S>, empty: S)

  /** A write can fail, leaving the file as it was or with anything in it, or silently write something else. */
  datatype WriteFault<S> = Written | WriteFails(left: Slot<S>) | Garbled(instead: Blob<S>)

  datatype Faults<S> = Faults(write: WriteFault<S>, readFails: bool, renameFails: bool, syncFails: bool)

  /** Creating the backup, writing it, syncing the file, reading an existing one, and syncing the directory. */
  datatype BackupFaults<S> = BackupFaults(
    createFails: bool, partial: Slot<S>, fileSyncFails: bool, readFails: bool, syncFails: bool)

  datatype SaveResult = Saved | NotReplaced | Unsynced

  /** `decode_v3`: authentic, well formed and accepted by validation. */
  function Decode<S, P>(rules: Rules<S, P>, slot: Slot<S>): Option<S>
  {
    if slot.Some? && slot.value.V3? && rules.accepts(slot.value.state) then Some(slot.value.state) else None
  }

  // ----- saving, as a function of the faults -----

  function WriteCandidate<S(==)>(disk: Disk<S>, payload: Blob<S>, fault: WriteFault<S>): Disk<S>
  {
    match fault
    case Written => disk.(candidate := Some(payload))
    case WriteFails(left) => if left.Some? then disk.(candidate := left) else disk
    case Garbled(instead) => disk.(candidate := Some(instead))
  }

  function Rename<S(==)>(disk: Disk<S>): Disk<S>
  {
    disk.(active := disk.candidate, candidate := None,
          activeAfterCrash := disk.activeAfterCrash + {disk.candidate})
  }

  /** The names in the directory are durable; so are the contents of files that were synced themselves. */
  function Sync<S(==)>(disk: Disk<S>): Disk<S>
  {
    disk.(activeAfterCrash := {disk.active}, backupAfterCrash := NamedBackup(disk))
  }

  /** What a crash may leave of the backup once its name is durable. */
  function NamedBackup<S(==)>(disk: Disk<S>): set<Slot<S>>
  {
    if disk.backupSynced then {disk.backup} else disk.backupAfterCrash - {None}
  }

  function Save<S(==), P(==)>(rules: Rules<S, P>, disk: Disk<S>, state: S, faults: Faults<S>): (Disk<S>, SaveResult)
  {
    var written := WriteCandidate(disk, V3(state), faults.write);
    if faults.write.WriteFails? || faults.readFails || Decode(rules, written.candidate) != Some(state)
      || faults.renameFails
    then (written, NotReplaced)
    else if faults.syncFails then (Rename(written), Unsynced)
    else (Sync(Rename(written)), Saved)
  }

  /** A save published the active file by exactly this state or leaves it alone; until the directory is synced
      a crash may bring back what was there before. */
  lemma SaveMeans<S, P>(rules: Rules<S, P>, disk: Disk<S>, state: S, faults: Faults<S>)
    ensures var (after, result) := Save(rules, disk, state, faults);
      && after.backup == disk.backup
      && (result == NotReplaced ==>
            && after == disk.(candidate := after.candidate))
      && (result != NotReplaced ==>
            && rules.accepts(state) && after.active == Some(V3(state)) && after.candidate == None)
      && (result == Unsynced ==>
            && after.activeAfterCrash == disk.activeAfterCrash + {Some(V3(state))}
            && after.backupAfterCrash == disk.backupAfterCrash)
      && (result == Saved ==>
            && after.activeAfterCrash == {Some(V3(state))}
            && after.backupAfterCrash == NamedBackup(disk))
      && after.backupSynced == disk.backupSynced
  {
  }

  // ----- the open store -----

  datatype Runtime<S> = Runtime(committed: S, reloadRequired: bool)

  /** The state in memory, read again from the active file if the last save left it uncertain. */
  function Reload<S(==), P(==)>(rules: Rules<S, P>, disk: Disk<S>, runtime: Runtime<S>, readFails: bool)
    : Option<Runtime<S>>
  {
    if !runtime.reloadRequired then Some(runtime)
    else if readFails || Decode(rules, disk.active).None? then None
    else Some(Runtime(Decode(rules, disk.active).value, false))
  }

  function Snapshot<S(==), P(==)>(rules: Rules<S, P>, disk: Disk<S>, runtime: Runtime<S>, readFails: bool)
    : (Runtime<S>, Option<S>)
  {
    var reloaded := Reload(rules, disk, runtime, readFails);
    if reloaded.None? then (runtime, None) else (reloaded.value, Some(reloaded.value.committed))
  }

  function Transaction<S(==), P(==)>(rules: Rules<S, P>, disk: Disk<S>, runtime: Runtime<S>,
                                     change: S -> Option<S>, readFails: bool, faults: Faults<S>)
    : (Disk<S>, Runtime<S>, bool)
  {
    var reloaded := Reload(rules, disk, runtime, readFails);
    if reloaded.None? then (disk, runtime, false)
    else
      var current := reloaded.value;
      var candidate := change(current.committed);
      if candidate.None? || rules.provenance(candidate.value) != rules.provenance(current.committed)
         || !rules.accepts(candidate.value)
      then (disk, current, false)
      else
        var (after, result) := Save(rules, disk, candidate.value, faults);
        if result == Saved then (after, Runtime(candidate.value, false), true)
        else (after, current.(reloadRequired := result == Unsynced), false)
  }

  // ----- opening -----

  /** A new backup: whatever part of it was written, and what a crash may make of it. */
  function CreateBackup<S(==)>(disk: Disk<S>, source: Blob<S>, faults: BackupFaults<S>): Disk<S>
  {
    var written := if faults.partial.Some? then faults.partial else Some(source);
    var durable := faults.partial.None? && !faults.fileSyncFails;
    disk.(backup := written,
          backupAfterCrash := disk.backupAfterCrash + {written} + (if durable then {} else {Some(Junk(0))}),
          backupSynced := durable)
  }

  function PreserveBackup<S(==)>(disk: Disk<S>, source: Blob<S>, faults: BackupFaults<S>): (Disk<S>, bool)
  {
    if disk.backup.None? then
      if faults.createFails then (disk, false)
      else
        var created := CreateBackup(disk, source, faults);
        if faults.partial.Some? || faults.fileSyncFails || faults.syncFails then (created, false)
        else (Sync(created), true)
    else if faults.readFails || disk.backup != Some(source) || faults.syncFails then (disk, false)
    else (Sync(disk), true)
  }

  /** Opening reads a current state, migrates a legacy one after backing it up, or starts an empty one unless
      leftovers show that there was a store. */
  function Initialize<S(==), P(==)>(rules: Rules<S, P>, disk: Disk<S>, readFails: bool, backup: BackupFaults<S>,
                                    faults: Faults<S>)
    : (Disk<S>, Option<S>)
  {
    if readFails then (disk, None)
    else match disk.active
      case Some(V3(state)) => (disk, Decode(rules, disk.active))
      case Some(Junk(_)) => (disk, None)
      case Some(Legacy(content)) =>
        var (kept, preserved) := PreserveBackup(disk, Legacy(content), backup);
        if !preserved || rules.migrate(content).None? then (kept, None)
        else SaveFirst(rules, kept, rules.migrate(content).value, faults)
      case None =>
        if disk.backup.Some? || disk.candidate.Some? || !rules.accepts(rules.empty) then (disk, None)
        else SaveFirst(rules, disk, rules.empty, faults)
  }

  function SaveFirst<S(==), P(==)>(rules: Rules<S, P>, disk: Disk<S>, state: S, faults: Faults<S>): (Disk<S>, Option<S>)
  {
    var (after, result) := Save(rules, disk, state, faults);
    (after, if result == Saved then Some(state) else None)
  }

  // ----- runs -----

  /** The profile, and the store while it is open. */
  datatype World<S(==)> = World(disk: Disk<S>, runtime: Option<Runtime<S>>)

  datatype Operation<!S(==)> =
    | Open(readFails: bool, backupFaults: BackupFaults<S>, faults: Faults<S>)
    | TakeSnapshot(readFails: bool)
    | Transact(change: S -> Option<S>, readFails: bool, faults: Faults<S>)
    | Close
    | Crash(active: Slot<S>, candidate: Slot<S>, backup: Slot<S>)

  /** A crash that leaves these files is possible. */
  predicate Possible<S(==)>(w: World<S>, active: Slot<S>, backup: Slot<S>)
  {
    active in w.disk.activeAfterCrash && backup in w.disk.backupAfterCrash
  }

  /** One operation; a crash inside an operation is that operation failing at that point and then the crash. */
  function Step<S(==), P(==)>(rules: Rules<S, P>, w: World<S>, op: Operation<S>): World<S>
  {
    match op
    case Open(readFails, backupFaults, faults) =>
      if w.runtime.Some? then w
      else
        var (disk, state) := Initialize(rules, w.disk, readFails, backupFaults, faults);
        World(disk, if state.Some? then Some(Runtime(state.value, false)) else None)
    case TakeSnapshot(readFails) =>
      if w.runtime.None? then w else World(w.disk, Some(Snapshot(rules, w.disk, w.runtime.value, readFails).0))
    case Transact(change, readFails, faults) =>
      if w.runtime.None? then w
      else
        var (disk, runtime, ok) := Transaction(rules, w.disk, w.runtime.value, change, readFails, faults);
        World(disk, Some(runtime))
    case Close => World(w.disk, None)
    case Crash(active, candidate, backup) =>
      if Possible(w, active, backup) then Initial(active, candidate, backup) else w
  }

  /** A profile before its first run, and after a crash: what is in its files has been there for long. */
  function Initial<S(==)>(active: Slot<S>, candidate: Slot<S>, backup: Slot<S>): World<S>
  {
    World(Disk(active, candidate, backup, {active}, {backup}, true), None)
  }

  function Run<S(==), P(==)>(rules: Rules<S, P>, start: World<S>, ops: seq<Operation<S>>): World<S>
  {
    if |ops| == 0 then start else Step(rules, Run(rules, start, ops[..|ops| - 1]), ops[|ops| - 1])
  }

  // ----- what every run keeps -----

  /** The provenance of every state the profile can come to hold. */
  function Origin<S(==), P(==)>(rules: Rules<S, P>, origin: Slot<S>): Option<P>
  {
    match origin
    case None => Some(rules.provenance(rules.empty))
    case Some(V3(state)) => Some(rules.provenance(state))
    case Some(Legacy(content)) =>
      if rules.migrate(content).Some? then Some(rules.provenance(rules.migrate(content).value)) else None
    case Some(Junk(_)) => None
  }

  /** The active file holds what the profile began with, or an accepted state of the same provenance. */
  ghost predicate Legitimate<S, P>(rules: Rules<S, P>, origin: Slot<S>, active: Slot<S>)
  {
    active == origin
      || (Decode(rules, active).Some? && Some(rules.provenance(active.value.state)) == Origin(rules, origin))
  }

  ghost predicate Inv<S, P>(rules: Rules<S, P>, origin: Slot<S>, w: World<S>)
  {
    && w.disk.active in w.disk.activeAfterCrash
    && w.disk.backup in w.disk.backupAfterCrash
    && (forall x :: x in w.disk.activeAfterCrash ==> Legitimate(rules, origin, x))
    && (w.runtime.Some? ==>
          && Decode(rules, w.disk.active).Some?
          && rules.accepts(w.runtime.value.committed)
          && rules.provenance(w.runtime.value.committed) == rules.provenance(w.disk.active.value.state)
          && (!w.runtime.value.reloadRequired ==> w.disk.active == Some(V3(w.runtime.value.committed))))
    && (w.disk.backup.None? ==> w.disk.backupSynced)
    && (w.disk.backup.None? ==> w.disk.backupAfterCrash == {None})
    && (if w.disk.backupSynced then w.disk.backupAfterCrash <= {None, w.disk.backup}
        else Some(Junk(0)) in w.disk.backupAfterCrash)
    && (origin.Some? && origin.value.Legacy? && w.disk.activeAfterCrash != {origin} ==>
          && w.disk.active != origin
          && (w.disk.backupSynced ==> w.disk.backupAfterCrash == {w.disk.backup}))
  }

  lemma StepKeeps<S, P>(rules: Rules<S, P>, origin: Slot<S>, w: World<S>, op: Operation<S>)
    requires Inv(rules, origin, w)
    ensures Inv(rules, origin, Step(rules, w, op))
  {
    match op
    case Open(readFails, backupFaults, faults) => OpenKeeps(rules, origin, w, readFails, backupFaults, faults);
    case Transact(change, readFails, faults) => TransactKeeps(rules, origin, w, change, readFails, faults);
    case _ =>
  }

  lemma TransactKeeps<S, P>(rules: Rules<S, P>, origin: Slot<S>, w: World<S>, change: S -> Option<S>, readFails: bool,
                            faults: Faults<S>)
    requires Inv(rules, origin, w)
    ensures Inv(rules, origin, Step(rules, w, Transact(change, readFails, faults)))
  {
    hide Save;
    if w.runtime.Some? {
      var reloaded := Reload(rules, w.disk, w.runtime.value, readFails);
      if reloaded.Some? && change(reloaded.value.committed).Some? {
        SaveMeans(rules, w.disk, change(reloaded.value.committed).value, faults);
      }
    }
  }

  lemma OpenKeeps<S, P>(rules: Rules<S, P>, origin: Slot<S>, w: World<S>, readFails: bool, backup: BackupFaults<S>,
                        faults: Faults<S>)
    requires Inv(rules, origin, w)
    ensures Inv(rules, origin, Step(rules, w, Open(readFails, backup, faults)))
  {
    hide Save;
    match w.disk.active
    case None => SaveMeans(rules, w.disk, rules.empty, faults);
    case Some(Legacy(content)) =>
      var (kept, preserved) := PreserveBackup(w.disk, Legacy(content), backup);
      if rules.migrate(content).Some? {
        SaveMeans(rules, kept, rules.migrate(content).value, faults);
      }
    case _ =>
  }

  lemma {:induction false} RunKeeps<S, P>(rules: Rules<S, P>, active: Slot<S>, candidate: Slot<S>, backup: Slot<S>,
                                          ops: seq<Operation<S>>)
    ensures Inv(rules, active, Run(rules, Initial(active, candidate, backup), ops))
  {
    if |ops| > 0 {
      hide Step, Inv;
      RunKeeps(rules, active, candidate, backup, ops[..|ops| - 1]);
      StepKeeps(rules, active, Run(rules, Initial(active, candidate, backup), ops[..|ops| - 1]), ops[|ops| - 1]);
    }
  }

  /** A world that some run of the profile reaches. */
  ghost predicate Reachable<S(!new), P>(rules: Rules<S, P>, origin: Slot<S>, w: World<S>)
  {
    exists candidate, backup, ops :: w == Run(rules, Initial(origin, candidate, backup), ops)
  }

  lemma ReachableKeeps<S(!new), P>(rules: Rules<S, P>, origin: Slot<S>, w: World<S>)
    requires Reachable(rules, origin, w)
    ensures Inv(rules, origin, w)
  {
    hide Run, Inv;
    var candidate, backup, ops :| w == Run(rules, Initial(origin, candidate, backup), ops);
    RunKeeps(rules, origin, candidate, backup, ops);
  }

  /** A snapshot is the state that the last rename put into the active file. */
  lemma SnapshotIsActive<S(!new), P>(rules: Rules<S, P>, origin: Slot<S>, w: World<S>, readFails: bool)
    requires Reachable(rules, origin, w) && w.runtime.Some?
    ensures var (runtime, state) := Snapshot(rules, w.disk, w.runtime.value, readFails);
      && (state.Some? ==> w.disk.active == Some(V3(state.value)) && rules.accepts(state.value))
      && (!readFails ==> state.Some?)
      && (state.None? ==> readFails && runtime == w.runtime.value)
  {
    hide Run;
    ReachableKeeps(rules, origin, w);
  }

  /** A transaction applies its change to the active state and renames the result into place, or leaves the
      active file alone; whichever it was, the next snapshot sees it, and a crash brings back nothing older
      than what the last synced save left. */
  lemma TransactionIsAtomic<S(!new), P>(rules: Rules<S, P>, origin: Slot<S>, w: World<S>, change: S -> Option<S>,
                                  readFails: bool, faults: Faults<S>)
    requires Reachable(rules, origin, w) && w.runtime.Some?
    ensures w.disk.active.Some? && w.disk.active.value.V3?
    ensures var (disk, runtime, ok) := Transaction(rules, w.disk, w.runtime.value, change, readFails, faults);
      var before := w.disk.active.value.state;
      && (ok ==>
            && change(before).Some? && disk.active == Some(V3(change(before).value))
            && disk.activeAfterCrash == {disk.active})
      && (!ok && disk.active != w.disk.active ==>
            && change(before).Some? && disk.active == Some(V3(change(before).value))
            && disk.activeAfterCrash == w.disk.activeAfterCrash + {disk.active})
      && (!ok && disk.active == w.disk.active ==> disk.activeAfterCrash == w.disk.activeAfterCrash)
      && disk.active.Some? && disk.active.value.V3?
      && Snapshot(rules, disk, runtime, false).1 == Some(disk.active.value.state)
  {
    hide Run, Save;
    ReachableKeeps(rules, origin, w);
    var reloaded := Reload(rules, w.disk, w.runtime.value, readFails);
    if reloaded.Some? && change(reloaded.value.committed).Some? {
      SaveMeans(rules, w.disk, change(reloaded.value.committed).value, faults);
    }
  }

  /** These faults let a save rename its candidate over the active file, synced or not: the write leaves exactly
      the new state, it can be read back and renamed, and validation accepts it. */
  predicate Replaces<S(==), P(==)>(rules: Rules<S, P>, state: S, faults: Faults<S>)
  {
    && (faults.write == Written || faults.write == Garbled(V3(state)))
    && !faults.readFails && !faults.renameFails
    && rules.accepts(state)
  }

  lemma ReplacesMeans<S, P>(rules: Rules<S, P>, disk: Disk<S>, state: S, faults: Faults<S>)
    ensures Save(rules, disk, state, faults).1 != NotReplaced <==> Replaces(rules, state, faults)
    ensures Save(rules, disk, state, faults).1 == Saved <==> Replaces(rules, state, faults) && !faults.syncFails
  {
  }

  /** What a save that got no further leaves in the place of its candidate. */
  function LeftBehind<S(==)>(disk: Disk<S>, state: S, fault: WriteFault<S>): Slot<S>
  {
    if fault == WriteFails(None) then disk.candidate
    else if fault.WriteFails? then fault.left
    else if fault.Garbled? then Some(fault.instead)
    else Some(V3(state))
  }

  lemma LeftBehindMeans<S, P>(rules: Rules<S, P>, disk: Disk<S>, state: S, faults: Faults<S>)
    ensures Save(rules, disk, state, faults).0.candidate ==
      if Replaces(rules, state, faults) then None else LeftBehind(disk, state, faults.write)
  {
  }

  /** Once the directory is synced no crash loses the name of a file in it; nothing else becomes impossible
      for a backup that was not synced itself. */
  lemma SyncedNamesStay<S>(disk: Disk<S>)
    ensures disk.backup.Some? ==> None !in Sync(disk).backupAfterCrash
    ensures forall content: Blob<S> :: !disk.backupSynced && Some(content) in disk.backupAfterCrash ==>
              Some(content) in Sync(disk).backupAfterCrash
    ensures disk.backupSynced ==> Sync(disk).backupAfterCrash == {disk.backup}
    ensures Sync(disk).activeAfterCrash == {disk.active}
  {
  }

  /** A transaction succeeds, in every run, exactly when its state can be read where that is needed, its change of
      the active state exists and keeps the provenance, the faults let it replace the active file, and the sync
      works; without the sync the active file holds the new state all the same, and in every other case it holds
      the old one. A change that is not there, alters the provenance or is not accepted touches no file. */
  lemma TransactionSucceedsExactly<S(!new), P>(rules: Rules<S, P>, origin: Slot<S>, w: World<S>,
                                               change: S -> Option<S>, readFails: bool, faults: Faults<S>)
    requires Reachable(rules, origin, w) && w.runtime.Some?
    ensures w.disk.active.Some? && w.disk.active.value.V3?
    ensures var (disk, runtime, ok) := Transaction(rules, w.disk, w.runtime.value, change, readFails, faults);
      var before := w.disk.active.value.state; var after := change(before);
      var published :=
        && (w.runtime.value.reloadRequired ==> !readFails)
        && after.Some? && rules.provenance(after.value) == rules.provenance(before)
        && Replaces(rules, after.value, faults);
      && (ok <==> published && !faults.syncFails)
      && disk.active == (if published then Some(V3(after.value)) else w.disk.active)
      && disk.backup == w.disk.backup
      && (if (w.runtime.value.reloadRequired && readFails) || after.None?
             || rules.provenance(after.value) != rules.provenance(before) || !rules.accepts(after.value)
          then disk == w.disk
          else disk.candidate == if published then None else LeftBehind(w.disk, after.value, faults.write))
      && (runtime.reloadRequired <==>
            || (published && faults.syncFails)
            || (w.runtime.value.reloadRequired && readFails))
  {
    hide Run, Save, Replaces;
    ReachableKeeps(rules, origin, w);
    var before := w.disk.active.value.state;
    if change(before).Some? {
      SaveMeans(rules, w.disk, change(before).value, faults);
      ReplacesMeans(rules, w.disk, change(before).value, faults);
      LeftBehindMeans(rules, w.disk, change(before).value, faults);
    }
  }

  /** A backup of these bytes is in place after an opening: written, synced and named, or found equal and named. */
  predicate BacksUp<S(==)>(disk: Disk<S>, source: Blob<S>, faults: BackupFaults<S>)
  {
    && !faults.syncFails
    && if disk.backup.None? then !faults.createFails && faults.partial.None? && !faults.fileSyncFails
       else !faults.readFails && disk.backup == Some(source)
  }

  /** What an opening gives, and when it gives nothing. */
  lemma OpeningSucceedsExactly<S, P>(rules: Rules<S, P>, disk: Disk<S>, readFails: bool, backup: BackupFaults<S>,
                                     faults: Faults<S>)
    ensures var (after, state) := Initialize(rules, disk, readFails, backup, faults);
      match disk.active
      case Some(V3(current)) =>
        state == (if !readFails && rules.accepts(current) then Some(current) else None) && after == disk
      case Some(Junk(_)) => state == None && after == disk
      case None =>
        var created := !readFails && disk.backup.None? && disk.candidate.None? && Replaces(rules, rules.empty, faults);
        && state == (if created && !faults.syncFails then Some(rules.empty) else None)
        && after.active == (if created then Some(V3(rules.empty)) else None)
        && after.backup == disk.backup
      case Some(Legacy(content)) =>
        var migrated := rules.migrate(content);
        var published := !readFails && BacksUp(disk, Legacy(content), backup) && migrated.Some?
          && Replaces(rules, migrated.value, faults);
        && state == (if published && !faults.syncFails then migrated else None)
        && after.active == (if published then Some(V3(migrated.value)) else disk.active)
        && (BacksUp(disk, Legacy(content), backup) && !readFails ==> after.backup == disk.active)
        && (readFails || disk.backup.Some? || backup.createFails ==> after.backup == disk.backup)
        && (!readFails && disk.backup.None? && !backup.createFails ==>
              && after.backup == (if backup.partial.Some? then backup.partial else disk.active)
              && (after.backupSynced <==> backup.partial.None? && !backup.fileSyncFails)
              && (!after.backupSynced ==> exists other :: other in after.backupAfterCrash && other != disk.active))
  {
    hide Save;
    match disk.active
    case None =>
      SaveMeans(rules, disk, rules.empty, faults);
      ReplacesMeans(rules, disk, rules.empty, faults);
    case Some(Legacy(content)) =>
      var kept := PreserveBackup(disk, Legacy(content), backup).0;
      if rules.migrate(content).Some? {
        SaveMeans(rules, kept, rules.migrate(content).value, faults);
        ReplacesMeans(rules, kept, rules.migrate(content).value, faults);
      }
    case _ =>
  }

  // ----- the store as a plain variable -----

  /** What a caller can know of a profile with a current state: that state, whether the store is open, and whether
      it must be read again before it is used. */
  datatype Variable<S> = Variable(state: S, open: bool, uncertain: bool)

  function Effect<S(==), P(==)>(rules: Rules<S, P>, v: Variable<S>, op: Operation<S>): Variable<S>
  {
    match op
    case Open(readFails, _, _) => if v.open then v else v.(open := !readFails, uncertain := false)
    case Close => v.(open := false, uncertain := false)
    case TakeSnapshot(readFails) => v.(uncertain := v.uncertain && readFails)
    case Transact(change, readFails, faults) =>
      var after := change(v.state);
      if !v.open || (v.uncertain && readFails) then v
      else if after.None? || rules.provenance(after.value) != rules.provenance(v.state)
              || !Replaces(rules, after.value, faults)
      then v.(uncertain := false)
      else v.(state := after.value, uncertain := faults.syncFails)
    case Crash(_, _, _) => v
  }

  function Effects<S(==), P(==)>(rules: Rules<S, P>, v: Variable<S>, ops: seq<Operation<S>>): Variable<S>
  {
    if |ops| == 0 then v else Effect(rules, Effects(rules, v, ops[..|ops| - 1]), ops[|ops| - 1])
  }

  ghost predicate Shows<S, P>(rules: Rules<S, P>, w: World<S>, v: Variable<S>)
  {
    && w.disk.active == Some(V3(v.state)) && rules.accepts(v.state)
    && (w.runtime.Some? <==> v.open)
    && v.uncertain == (w.runtime.Some? && w.runtime.value.reloadRequired)
  }

  lemma EffectStep<S, P>(rules: Rules<S, P>, origin: Slot<S>, w: World<S>, v: Variable<S>, op: Operation<S>)
    requires Inv(rules, origin, w) && Shows(rules, w, v) && !op.Crash?
    ensures Shows(rules, Step(rules, w, op), Effect(rules, v, op))
  {
    hide Save, Replaces;
    match op
    case Transact(change, readFails, faults) =>
      if change(v.state).Some? {
        SaveMeans(rules, w.disk, change(v.state).value, faults);
        ReplacesMeans(rules, w.disk, change(v.state).value, faults);
        assert Replaces(rules, change(v.state).value, faults) ==> rules.accepts(change(v.state).value);
      }
    case _ =>
  }

  /** Between two crashes the store behaves, whatever fails, as a variable that every operation reads and writes at
      once: the two files, the lazy reload and the unsynced saves do not show. */
  lemma {:induction false} BehavesAsVariable<S(!new), P>(rules: Rules<S, P>, origin: Slot<S>, w: World<S>,
                                               v: Variable<S>,
                                                         ops: seq<Operation<S>>)
    requires Inv(rules, origin, w) && Shows(rules, w, v)
    requires forall i | 0 <= i < |ops| :: !ops[i].Crash?
    ensures Inv(rules, origin, Run(rules, w, ops)) && Shows(rules, Run(rules, w, ops), Effects(rules, v, ops))
  {
    if |ops| > 0 {
      hide Inv, Shows, Step, Effect;
      var n := |ops| - 1;
      BehavesAsVariable(rules, origin, w, v, ops[..n]);
      StepKeeps(rules, origin, Run(rules, w, ops[..n]), ops[n]);
      EffectStep(rules, origin, Run(rules, w, ops[..n]), Effects(rules, v, ops[..n]), ops[n]);
    }
  }

  // ----- the legacy bytes -----

  /** A crash now may leave the legacy bytes neither in the active file nor in the backup. */
  ghost predicate Losable<S>(legacy: Slot<S>, w: World<S>)
  {
    exists active, backup ::
      active in w.disk.activeAfterCrash && backup in w.disk.backupAfterCrash && active != legacy && backup != legacy
  }

  /** An opening that finds a backup equal to the legacy bytes whose contents never were synced, takes it for
      good, and puts the migrated state over the active file. */
  predicate TakesUnsynced<S(==), P(==)>(rules: Rules<S, P>, w: World<S>, op: Operation<S>)
  {
    && op.Open? && w.runtime.None? && !op.readFails
    && w.disk.active.Some? && w.disk.active.value.Legacy?
    && w.disk.backup == w.disk.active && !w.disk.backupSynced
    && !op.backupFaults.readFails && !op.backupFaults.syncFails
    && var state := rules.migrate(w.disk.active.value.content);
       state.Some? && Replaces(rules, state.value, op.faults)
  }

  /** A crash that happens to leave the legacy bytes in one of the two files. */
  predicate Restores<S(==)>(legacy: Slot<S>, w: World<S>, op: Operation<S>)
  {
    op.Crash? && Possible(w, op.active, op.backup) && (op.active == legacy || op.backup == legacy)
  }

  /** Only an opening that takes an unsynced backup puts the legacy bytes at risk, every such opening does, and
      only a crash that happens to leave them ends it. */
  lemma LosableStep<S, P>(rules: Rules<S, P>, content: nat, w: World<S>, op: Operation<S>)
    requires Inv(rules, Some(Legacy(content)), w)
    ensures Losable(Some(Legacy(content)), Step(rules, w, op)) <==>
      if Losable(Some(Legacy(content)), w) then !Restores(Some(Legacy(content)), w, op) else TakesUnsynced(rules, w, op)
  {
    var legacy: Slot<S> := Some(Legacy(content));
    StepKeeps(rules, legacy, w, op);
    RiskMeans(rules, legacy, w);
    RiskMeans(rules, legacy, Step(rules, w, op));
    match op
    case Open(readFails, backupFaults, faults) => RiskOfOpening(rules, content, w, readFails, backupFaults, faults);
    case Transact(change, readFails, faults) => RiskOfTransaction(rules, content, w, change, readFails, faults);
    case _ =>
  }

  lemma RiskMeans<S, P>(rules: Rules<S, P>, legacy: Slot<S>, w: World<S>)
    requires Inv(rules, legacy, w)
    ensures Losable(legacy, w) <==> w.disk.activeAfterCrash != {legacy} && w.disk.backupAfterCrash != {legacy}
  {
    if w.disk.activeAfterCrash != {legacy} && w.disk.backupAfterCrash != {legacy} {
      var active :| active in w.disk.activeAfterCrash && active != legacy;
      var backup :| backup in w.disk.backupAfterCrash && backup != legacy;
    }
  }

  lemma RiskOfTransaction<S, P>(rules: Rules<S, P>, content: nat, w: World<S>, change: S -> Option<S>, readFails: bool,
                                faults: Faults<S>)
    requires Inv(rules, Some(Legacy(content)), w)
    ensures var next := Step(rules, w, Transact(change, readFails, faults)).disk;
      && (next.activeAfterCrash != {Some(Legacy(content))} <==> w.disk.activeAfterCrash != {Some(Legacy(content))})
      && (next.activeAfterCrash != {Some(Legacy(content))} ==>
            (next.backupAfterCrash == {Some(Legacy(content))} <==> w.disk.backupAfterCrash == {Some(Legacy(content))}))
  {
    hide Save;
    if w.runtime.Some? {
      assert !w.disk.backupSynced ==> Some(Junk(0)) in NamedBackup(w.disk) && Some(Junk(0)) in w.disk.backupAfterCrash;
      var reloaded := Reload(rules, w.disk, w.runtime.value, readFails);
      if reloaded.Some? && change(reloaded.value.committed).Some? {
        SaveMeans(rules, w.disk, change(reloaded.value.committed).value, faults);
      }
    }
  }

  lemma RiskOfOpening<S, P>(rules: Rules<S, P>, content: nat, w: World<S>, readFails: bool, backup: BackupFaults<S>,
                            faults: Faults<S>)
    requires Inv(rules, Some(Legacy(content)), w)
    ensures var legacy: Slot<S> := Some(Legacy(content)); var op := Open(readFails, backup, faults);
      var next := Step(rules, w, op).disk;
      if w.disk.activeAfterCrash != {legacy} then next == w.disk
      else next.activeAfterCrash != {legacy} && next.backupAfterCrash != {legacy} <==> TakesUnsynced(rules, w, op)
  {
    hide Save, Replaces;
    if w.runtime.None? && !readFails && w.disk.active == Some(Legacy(content)) {
      var (kept, preserved) := PreserveBackup(w.disk, Legacy(content), backup);
      if rules.migrate(content).Some? {
        SaveMeans(rules, kept, rules.migrate(content).value, faults);
        ReplacesMeans(rules, kept, rules.migrate(content).value, faults);
        assert !kept.backupSynced ==> Some(Junk(0)) in NamedBackup(kept);
      }
    }
  }

  /** In this run the i-th operation took an unsynced backup, and no crash since then left the legacy bytes. */
  ghost predicate TakenAt<S, P>(rules: Rules<S, P>, start: World<S>, ops: seq<Operation<S>>, i: nat)
    requires i < |ops|
  {
    && TakesUnsynced(rules, Run(rules, start, ops[..i]), ops[i])
    && (forall j :: i < j < |ops| ==> !Restores(start.disk.active, Run(rules, start, ops[..j]), ops[j]))
  }

  /** In every run of a profile that began with a legacy store: a crash can leave its bytes neither in the active
      file nor in the backup exactly if some opening took an unsynced backup for good; and whatever a crash leaves
      in place of them is an accepted state of the provenance of their migration. */
  lemma {:induction false} LegacyKeptExactly<S, P>(rules: Rules<S, P>, content: nat, candidate: Slot<S>,
                                                   backup: Slot<S>, ops: seq<Operation<S>>)
    ensures var start := Initial(Some(Legacy(content)), candidate, backup); var w := Run(rules, start, ops);
      && (Losable(Some(Legacy(content)), w) <==> exists i :: 0 <= i < |ops| && TakenAt(rules, start, ops, i))
      && (forall active :: active in w.disk.activeAfterCrash && active != Some(Legacy(content)) ==>
            && rules.migrate(content).Some? && Decode(rules, active).Some?
            && rules.provenance(active.value.state) == rules.provenance(rules.migrate(content).value))
  {
    var legacy: Slot<S> := Some(Legacy(content));
    var start := Initial(legacy, candidate, backup);
    RunKeeps(rules, legacy, candidate, backup, ops);
    if |ops| == 0 {
      RiskMeans(rules, legacy, start);
    } else {
      hide Step, TakesUnsynced, Losable, Restores, Inv;
      LegacyKeptExactly(rules, content, candidate, backup, ops[..|ops| - 1]);
      TakenLater(rules, content, start, ops);
      RunKeeps(rules, legacy, candidate, backup, ops[..|ops| - 1]);
      LosableStep(rules, content, Run(rules, start, ops[..|ops| - 1]), ops[|ops| - 1]);
    }
    LegitimateMeans(rules, content, Run(rules, start, ops));
  }

  lemma LegitimateMeans<S, P>(rules: Rules<S, P>, content: nat, w: World<S>)
    requires Inv(rules, Some(Legacy(content)), w)
    ensures forall active :: active in w.disk.activeAfterCrash && active != Some(Legacy(content)) ==>
      && rules.migrate(content).Some? && Decode(rules, active).Some?
      && rules.provenance(active.value.state) == rules.provenance(rules.migrate(content).value)
  {
  }

  /** One operation more. */
  lemma TakenLater<S, P>(rules: Rules<S, P>, content: nat, start: World<S>, ops: seq<Operation<S>>)
    requires |ops| > 0 && start.disk.active == Some(Legacy(content))
    ensures var n := |ops| - 1; var w := Run(rules, start, ops[..n]);
      && (TakenAt(rules, start, ops, n) <==> TakesUnsynced(rules, w, ops[n]))
      && (forall i :: 0 <= i < n ==>
            (TakenAt(rules, start, ops, i) <==>
               TakenAt(rules, start, ops[..n], i) && !Restores(Some(Legacy(content)), w, ops[n])))
  {
    hide Run, TakesUnsynced, Restores;
    var n := |ops| - 1;
    assert forall j :: 0 <= j <= n ==> ops[..n][..j] == ops[..j];
  }

  /** Until a crash, the bytes are in the visible backup as soon as they are not in the active file, synced or
      not. */
  lemma {:induction false} VisibleBackup<S(!new), P>(rules: Rules<S, P>, content: nat, w: World<S>,
                                                     ops: seq<Operation<S>>)
    requires Reachable(rules, Some(Legacy(content)), w) && w.disk.active == Some(Legacy(content))
    requires forall i :: 0 <= i < |ops| ==> !ops[i].Crash?
    ensures var after := Run(rules, w, ops).disk;
      after.active != Some(Legacy(content)) ==> after.backup == Some(Legacy(content))
  {
    hide Inv, Step, Reachable;
    var legacy: Slot<S> := Some(Legacy(content));
    ReachableKeeps(rules, legacy, w);
    VisibleInRun(rules, content, w, ops);
  }

  lemma {:induction false} VisibleInRun<S, P>(rules: Rules<S, P>, content: nat, w: World<S>, ops: seq<Operation<S>>)
    requires Inv(rules, Some(Legacy(content)), w) && w.disk.active == Some(Legacy(content))
    requires forall i :: 0 <= i < |ops| ==> !ops[i].Crash?
    ensures var after := Run(rules, w, ops);
      && Inv(rules, Some(Legacy(content)), after)
      && (after.disk.active != Some(Legacy(content)) ==> after.disk.backup == Some(Legacy(content)))
  {
    if |ops| > 0 {
      hide Inv, Step;
      VisibleInRun(rules, content, w, ops[..|ops| - 1]);
      StepKeeps(rules, Some(Legacy(content)), Run(rules, w, ops[..|ops| - 1]), ops[|ops| - 1]);
      VisibleStep(rules, content, Run(rules, w, ops[..|ops| - 1]), ops[|ops| - 1]);
    }
  }

  lemma VisibleStep<S, P>(rules: Rules<S, P>, content: nat, w: World<S>, op: Operation<S>)
    requires Inv(rules, Some(Legacy(content)), w) && !op.Crash?
    requires w.disk.active != Some(Legacy(content)) ==> w.disk.backup == Some(Legacy(content))
    ensures var after := Step(rules, w, op).disk;
      after.active != Some(Legacy(content)) ==> after.backup == Some(Legacy(content))
  {
    match op
    case Open(readFails, backup, faults) =>
      if w.disk.active == Some(Legacy(content)) && rules.migrate(content).Some? {
        SaveMeans(rules, PreserveBackup(w.disk, Legacy(content), backup).0, rules.migrate(content).value, faults);
      }
    case _ =>
  }

  /** Two openings, the first of which fails to sync the backup that it wrote. */
  lemma UnsyncedBackupCanBeLost<S, P>(rules: Rules<S, P>, content: nat) returns (ops: seq<Operation<S>>)
    requires rules.migrate(content).Some? && rules.accepts(rules.migrate(content).value)
    ensures var w := Run(rules, Initial(Some(Legacy(content)), None, None), ops);
      && Some(V3(rules.migrate(content).value)) in w.disk.activeAfterCrash
      && Some(Junk(0)) in w.disk.backupAfterCrash
  {
    var fine := Faults(Written, false, false, false);
    var first := Open(false, BackupFaults(false, None, true, false, false), fine);
    var second := Open(false, BackupFaults(false, None, false, false, false), fine);
    var start := Initial<S>(Some(Legacy(content)), None, None);
    var w1 := RunOne(rules, start, [], first);
    var w2 := RunOne(rules, start, [first], second);
    ops := [first] + [second];
  }

  lemma RunOne<S, P>(rules: Rules<S, P>, start: World<S>, ops: seq<Operation<S>>, op: Operation<S>)
    returns (w: World<S>)
    ensures w == Run(rules, start, ops + [op]) == Step(rules, Run(rules, start, ops), op)
  {
    assert (ops + [op])[..|ops|] == ops;
    w := Run(rules, start, ops + [op]);
  }

  /** A profile without an active file is never opened while a candidate or a backup is left over: neither
      opening it, again and again, nor a crash that leaves one of them creates an active file or touches the
      backup. */
  lemma {:induction false} LeftoversFailClosed<S, P>(rules: Rules<S, P>, candidate: Slot<S>, backup: Slot<S>,
                                                     ops: seq<Operation<S>>)
    requires candidate.Some? || backup.Some?
    requires forall i :: 0 <= i < |ops| && ops[i].Crash? ==> ops[i].candidate.Some? || backup.Some?
    ensures var w := Run(rules, Initial(None, candidate, backup), ops);
      && w == Initial(None, w.disk.candidate, backup)
      && (w.disk.candidate.Some? || backup.Some?)
  {
    if |ops| > 0 {
      LeftoversFailClosed(rules, candidate, backup, ops[..|ops| - 1]);
    }
  }

  // ----- the store, step by step -----

  /** The directory of a profile; every step meets the fault that it is given. */
  class Profile<S(==)> {
    var disk: Disk<S>

    constructor (disk: Disk<S>)
      ensures this.disk == disk
    {
      this.disk := disk;
    }

    method WritePrivate(payload: Blob<S>, fault: WriteFault<S>) returns (ok: bool)
      modifies this
      ensures disk == WriteCandidate(old(disk), payload, fault) && ok == !fault.WriteFails?
    {
      match fault
      case Written =>
        disk := disk.(candidate := Some(payload));
        return true;
      case WriteFails(left) =>
        if left.Some? {
          disk := disk.(candidate := left);
        }
        return false;
      case Garbled(instead) =>
        disk := disk.(candidate := Some(instead));
        return true;
    }

    method ReadCandidate(fails: bool) returns (bytes: Slot<S>)
      ensures bytes == if fails then None else disk.candidate
    {
      bytes := if fails then None else disk.candidate;
    }

    method Replace(fails: bool) returns (ok: bool)
      modifies this
      ensures ok == !fails && disk == if fails then old(disk) else Rename(old(disk))
    {
      if !fails {
        disk := Rename(disk);
      }
      return !fails;
    }

    method SyncDirectory(fails: bool) returns (ok: bool)
      modifies this
      ensures ok == !fails && disk == if fails then old(disk) else Sync(old(disk))
    {
      if !fails {
        disk := Sync(disk);
      }
      return !fails;
    }
  }

  method DurableSave<S(==), P(==)>(profile: Profile<S>, rules: Rules<S, P>, state: S, faults: Faults<S>)
    returns (result: SaveResult)
    modifies profile
    ensures (profile.disk, result) == Save(rules, old(profile.disk), state, faults)
  {
    var written := profile.WritePrivate(V3(state), faults.write);
    if !written {
      return NotReplaced;
    }
    var bytes := profile.ReadCandidate(faults.readFails);
    var actual := Decode(rules, bytes);
    if actual != Some(state) {
      return NotReplaced;
    }
    var replaced := profile.Replace(faults.renameFails);
    if !replaced {
      return NotReplaced;
    }
    var synced := profile.SyncDirectory(faults.syncFails);
    return if synced then Saved else Unsynced;
  }

  method KeepBackup<S(==)>(profile: Profile<S>, source: Blob<S>, faults: BackupFaults<S>) returns (ok: bool)
    modifies profile
    ensures (profile.disk, ok) == PreserveBackup(old(profile.disk), source, faults)
  {
    if profile.disk.backup.None? {
      if faults.createFails {
        return false;
      }
      profile.disk := CreateBackup(profile.disk, source, faults);
      if faults.partial.Some? || faults.fileSyncFails {
        return false;
      }
    } else if faults.readFails || profile.disk.backup != Some(source) {
      return false;
    }
    ok := profile.SyncDirectory(faults.syncFails);
  }

  method InitializeState<S(==), P(==)>(profile: Profile<S>, rules: Rules<S, P>, readFails: bool,
                                       backup: BackupFaults<S>, faults: Faults<S>)
    returns (state: Option<S>)
    modifies profile
    ensures (profile.disk, state) == Initialize(rules, old(profile.disk), readFails, backup, faults)
  {
    hide Save;
    if readFails {
      return None;
    }
    var first: S;
    match profile.disk.active {
      case Some(V3(_)) =>
        return Decode(rules, profile.disk.active);
      case Some(Junk(_)) =>
        return None;
      case Some(Legacy(content)) =>
        var preserved := KeepBackup(profile, Legacy(content), backup);
        if !preserved || rules.migrate(content).None? {
          return None;
        }
        first := rules.migrate(content).value;
      case None =>
        if profile.disk.backup.Some? || profile.disk.candidate.Some? || !rules.accepts(rules.empty) {
          return None;
        }
        first := rules.empty;
    }
    var result := DurableSave(profile, rules, first, faults);
    return if result == Saved then Some(first) else None;
  }

  class Store<S(==), P(==)> {
    const profile: Profile<S>
    const rules: Rules<S, P>
    var committed: S
    var reloadRequired: bool

    constructor (profile: Profile<S>, rules: Rules<S, P>, committed: S)
      ensures this.profile == profile && this.rules == rules
      ensures InMemory() == Runtime(committed, false)
    {
      this.profile, this.rules := profile, rules;
      this.committed, reloadRequired := committed, false;
    }

    function InMemory(): Runtime<S>
      reads this
    {
      Runtime(committed, reloadRequired)
    }

    method ReloadIfRequired(readFails: bool) returns (ok: bool)
      modifies this
      ensures var reloaded := Reload(rules, profile.disk, old(InMemory()), readFails);
        ok == reloaded.Some? && InMemory() == if ok then reloaded.value else old(InMemory())
    {
      if !reloadRequired {
        return true;
      }
      if readFails {
        return false;
      }
      var state := Decode(rules, profile.disk.active);
      if state.None? {
        return false;
      }
      committed, reloadRequired := state.value, false;
      return true;
    }

    method TakeSnapshot(readFails: bool) returns (state: Option<S>)
      modifies this
      ensures (InMemory(), state) == Snapshot(rules, profile.disk, old(InMemory()), readFails)
    {
      var ok := ReloadIfRequired(readFails);
      return if ok then Some(committed) else None;
    }

    method Transact(change: S -> Option<S>, readFails: bool, faults: Faults<S>) returns (ok: bool)
      modifies this, profile
      ensures (profile.disk, InMemory(), ok) ==
        Transaction(rules, old(profile.disk), old(InMemory()), change, readFails, faults)
    {
      hide Save;
      var reloaded := ReloadIfRequired(readFails);
      if !reloaded {
        return false;
      }
      var candidate := change(committed);
      if candidate.None? {
        return false;
      }
      if rules.provenance(candidate.value) != rules.provenance(committed) {
        return false;
      }
      if !rules.accepts(candidate.value) {
        return false;
      }
      var result := DurableSave(profile, rules, candidate.value, faults);
      if result != Saved {
        reloadRequired := result == Unsynced;
        return false;
      }
      committed := candidate.value;
      return true;
    }
  }
}
