// The staging transaction of tools/alpha_runner.py, one file step at a time.
module Staging {
  import opened Bytes
  import opened Wrappers
  import opened Files
  import opened StagingSpec
  import opened StagingRuns

  // The directory holding the game's SDK: the SDK file, its backup and its staging record.
  class SdkFolder {
    const name: string             // file name of the SDK
    const recordSize: nat          // length of the JSON text of a staging record
    const umask: Mode              // mode a freshly created file gets
    var sdk: Option<FileData>
    var backup: Option<FileData>
    var record: RecordFile
    const script: seq<Fate>        // what the world does to the file steps, in order
    var step: nat                  // file steps taken so far
    ghost var mishaps: nat         // steps so far that did not simply proceed
    ghost var garbles: nat         // copies so far that delivered other bytes

    constructor (name: string, sdk: FileData, recordSize: nat, umask: Mode, script: seq<Fate>)
      ensures View() == Disk(Some(sdk), None, NoRecord)
      ensures this.name == name && this.recordSize == recordSize && this.umask == umask && this.script == script
      ensures step == mishaps == garbles == 0
    {
      this.name, this.recordSize, this.umask := name, recordSize, umask;
      this.sdk, backup, record := Some(sdk), None, NoRecord;
      this.script, step, mishaps, garbles := script, 0, 0, 0;
    }

    function View(): Disk
      reads this
    {
      Disk(sdk, backup, record)
    }

    // Once the script has run out, everything proceeds.
    function FateOf(step: nat): Fate {
      if step < |script| then script[step] else Proceeds
    }

    predicate Smooth(from: nat, to: nat) {
      forall i :: from <= i < to ==> FateOf(i).Proceeds?
    }

    // Everything proceeds up to step `at`, in which the process dies with fewer than `size` bytes put down.
    predicate DiesAt(from: nat, at: nat, size: nat) {
      Smooth(from, at) && FateOf(at).Crashes? && FateOf(at).written < size
    }

    // Every file step first draws its fate.
    method Draw() returns (f: Fate)
      modifies this`step, this`mishaps, this`garbles
      ensures mishaps == old(mishaps) + (if f.Proceeds? then 0 else 1)
      ensures garbles == old(garbles) + (if f.Garbles? then 1 else 0)
      ensures f == FateOf(old(step)) && step == old(step) + 1
    {
      f := FateOf(step);
      step := step + 1;
      if !f.Proceeds? { mishaps := mishaps + 1; }
      if f.Garbles? { garbles := garbles + 1; }
    }

    // _write_new_json for the staging record: exclusive create, write, chmod; unlink on any exception,
    // even when the exception is that the file already existed.
    method WriteRecord(rec: Record) returns (o: Outcome)
      modifies this`record, this`step, this`mishaps, this`garbles
      ensures mishaps >= old(mishaps) && garbles >= old(garbles)
      ensures o.Done? ==> old(record) == NoRecord && record == Recorded(rec)
      ensures !o.Done? ==> record in {NoRecord, Unreadable, Recorded(rec), old(record)}
      ensures o.Failed? ==> o.error == OsError
      ensures o.Failed? && old(record) == NoRecord ==> mishaps > old(mishaps)
      ensures o.Failed? && mishaps <= old(mishaps) + 1 && old(record) == NoRecord ==> record == NoRecord
      ensures o.Crashed? ==> mishaps > old(mishaps)
      ensures old(record) == NoRecord && Smooth(old(step), old(step) + 3) ==> o.Done? && step == old(step) + 3
      // A process that dies in the write leaves a torn record.
      ensures old(record) == NoRecord && DiesAt(old(step), old(step) + 1, recordSize) ==>
                o.Crashed? && record == Unreadable
    {
      var f := Draw();                                       // open("xb")
      if f.Crashes? { return Crashed; }
      o := if f.Faults? || record != NoRecord then Failed(OsError) else Done;
      if o.Done? {
        record := Unreadable;                                // created, still empty
        f := Draw();                                         // write, flush, fsync
        if (f.Proceeds? || f.Garbles?) || f.written >= recordSize { record := Recorded(rec); }
        if f.Crashes? { return Crashed; }
        if f.Faults? {
          o := Failed(OsError);
        } else {
          f := Draw();                                       // chmod
          if f.Crashes? { return Crashed; }
          if f.Faults? { o := Failed(OsError); }
        }
      }
      if o.Failed? {
        f := Draw();                                         // unlink; an OSError is swallowed
        if f.Crashes? { return Crashed; }
        if !f.Faults? { record := NoRecord; }
      }
    }

    // What a copy of `content` has put down under fate `f`.
    function Copied(content: seq<Byte>, f: Fate): seq<Byte> {
      match f
      case Proceeds => content
      case Garbles(bytes) => bytes
      case _ => if f.written < |content| then content[..f.written] else content
    }

    // _copy_new from the SDK to its backup.
    method CopyToBackup(mode: Mode) returns (o: Outcome)
      requires sdk.Some?
      modifies this`backup, this`step, this`mishaps, this`garbles
      ensures mishaps >= old(mishaps) && garbles >= old(garbles)
      ensures garbles > old(garbles) ==> mishaps > old(mishaps)
      ensures o.Done? ==> old(backup).None? && backup.Some? && backup.value.mode == mode
      ensures o.Done? && garbles == old(garbles) ==> backup.value.content == sdk.value.content
      ensures !o.Done? && old(backup).None? && garbles == old(garbles) ==>
                backup.None? || backup.value.content <= sdk.value.content
      ensures o.Failed? ==> o.error == OsError
      ensures o.Failed? && old(backup).None? ==> mishaps > old(mishaps)
      ensures o.Failed? && mishaps <= old(mishaps) + 1 && old(backup).None? ==> backup.None?
      ensures o.Crashed? ==> mishaps > old(mishaps)
      // A process that dies in the copy leaves what has been copied.
      ensures old(backup).None? && DiesAt(old(step), old(step) + 1, |sdk.value.content|) ==>
                o.Crashed? && backup == Some(FileData(sdk.value.content[..FateOf(old(step) + 1).written], umask))
    {
      var f := Draw();                                       // open both ends, the target with "xb"
      if f.Crashes? { return Crashed; }
      o := if f.Faults? || backup.Some? then Failed(OsError) else Done;
      if o.Done? {
        f := Draw();                                         // copyfileobj, flush, fsync
        backup := Some(FileData(Copied(sdk.value.content, f), umask));
        if f.Crashes? { return Crashed; }
        if f.Faults? {
          o := Failed(OsError);
        } else {
          f := Draw();                                       // chmod
          if f.Crashes? { return Crashed; }
          if f.Faults? { o := Failed(OsError); } else { backup := Some(backup.value.(mode := mode)); }
        }
      }
      if o.Failed? {
        f := Draw();                                         // unlink; an OSError is swallowed
        if f.Crashes? { return Crashed; }
        if !f.Faults? { backup := None; }
      }
    }

    // _replace_from: copy to a temporary file, chmod it, rename it over the SDK.
    method ReplaceSdk(source: Option<FileData>, mode: Mode) returns (o: Outcome)
      modifies this`sdk, this`step, this`mishaps, this`garbles
      ensures mishaps >= old(mishaps) && garbles >= old(garbles)
      ensures garbles > old(garbles) ==> mishaps > old(mishaps)
      ensures o.Done? ==> source.Some? && sdk.Some? && sdk.value.mode == mode
      ensures o.Done? && garbles == old(garbles) ==> sdk.value.content == source.value.content
      ensures !o.Done? ==> sdk == old(sdk)
      ensures o.Failed? ==> o.error == OsError
      ensures o.Failed? && source.Some? ==> mishaps > old(mishaps)
      ensures o.Crashed? ==> mishaps > old(mishaps)
    {
      var f := Draw();                                       // mkstemp, open the source
      if f.Crashes? { return Crashed; }
      if f.Faults? || source.None? { return Failed(OsError); }
      f := Draw();                                           // copyfileobj, flush, fsync
      var temporary := FileData(Copied(source.value.content, f), umask);
      if f.Crashes? { return Crashed; }
      if f.Faults? { return Failed(OsError); }
      f := Draw();                                           // chmod
      if f.Crashes? { return Crashed; }
      if f.Faults? { return Failed(OsError); }
      temporary := temporary.(mode := mode);
      f := Draw();                                           // os.replace
      if f.Crashes? { return Crashed; }
      if f.Faults? { return Failed(OsError); }
      sdk := Some(temporary);
      o := Done;
    }

    // sha256_file(file) == digest; reading a missing file raises.
    method CheckHash(file: Option<FileData>, digest: Digest) returns (o: Outcome, same: bool)
      modifies this`step, this`mishaps, this`garbles
      ensures mishaps >= old(mishaps) && garbles >= old(garbles)
      ensures garbles > old(garbles) ==> mishaps > old(mishaps)
      ensures o.Done? ==> file.Some? && same == Hashes(file, digest)
      ensures o.Failed? ==> o.error == OsError
      ensures o.Failed? && file.Some? ==> mishaps > old(mishaps)
      ensures o.Crashed? ==> mishaps > old(mishaps)
    {
      var f := Draw();
      same := false;
      if f.Crashes? { return Crashed, false; }
      if f.Faults? || file.None? { return Failed(OsError), false; }
      o, same := Done, Sha256(file.value.content) == digest;
    }

    function TornRecord(original: FileData): Disk {
      Disk(Some(original), None, Unreadable)
    }

    // The disk left by a process that dies `written` bytes into the copy to the backup.
    function TornCopy(original: FileData, artifact: FileData, written: nat): Disk
      requires written <= |original.content|
    {
      Disk(Some(original), Some(FileData(original.content[..written], umask)),
           Recorded(RecordFor(name, original, artifact)))
    }

    // The guarded part of stage_sdk, lines 162-168.
    method WriteTransaction(original: FileData, artifact: FileData) returns (o: Outcome)
      requires View() == Disk(Some(original), None, NoRecord)
      modifies this
      ensures mishaps >= old(mishaps) && garbles >= old(garbles)
      ensures StagePoint(name, original, artifact, garbles == old(garbles), View())
      ensures o.Done? ==> View() == StagedDisk(name, original, artifact)
      ensures !o.Done? ==> mishaps > old(mishaps)
      ensures DiesAt(old(step), old(step) + 1, recordSize) ==> o.Crashed? && View() == TornRecord(original)
      ensures DiesAt(old(step), old(step) + 4, |original.content|) ==>
                o.Crashed? && View() == TornCopy(original, artifact, FateOf(old(step) + 4).written)
    {
      var rec := RecordFor(name, original, artifact);
      o := WriteRecord(rec);
      if !o.Done? { return; }
      o := CopyToBackup(original.mode);
      if !o.Done? { return; }
      var same;
      o, same := CheckHash(backup, rec.original);
      if !o.Done? { return; }
      if !same { return Failed(BackupUnverified); }
      assert backup == Some(original);
      o := ReplaceSdk(Some(artifact), original.mode);
      if !o.Done? { return; }
      o, same := CheckHash(sdk, rec.staged);
      if !o.Done? { return; }
      if !same { return Failed(StagedUnverified); }
    }

    // The exception handler of stage_sdk, lines 169-177: undo, but only while the SDK still hashes to
    // the original, and never let the record go before the backup.
    method UndoStage(original: Digest) returns (o: Outcome)
      modifies this`backup, this`record, this`step, this`mishaps, this`garbles
      ensures mishaps >= old(mishaps) && garbles >= old(garbles)
      ensures View() == old(View()) ||
              (Hashes(sdk, original) && backup.None? && record in {NoRecord, old(record)})
      ensures mishaps == old(mishaps) && Hashes(sdk, original) ==> View() == Disk(sdk, None, NoRecord)
      ensures o.Done? || o.Crashed?
      ensures o.Crashed? ==> mishaps > old(mishaps)
    {
      var same;
      o, same := CheckHash(sdk, original);
      if o.Crashed? { return; }
      var swallowed := o.Failed?;
      o := Done;
      if swallowed || !same { return; }
      if backup.Some? {
        var f := Draw();
        if f.Crashes? { return Crashed; }
        if f.Faults? { return; }
        backup := None;
      }
      if record != NoRecord {
        var f := Draw();
        if f.Crashes? { return Crashed; }
        if f.Faults? { return; }
        record := NoRecord;
      }
    }

    method StageSdk(artifact: Option<FileData>) returns (o: Outcome)
      modifies this
      ensures mishaps >= old(mishaps) && garbles >= old(garbles)
      ensures StageStep(name, old(View()), artifact, garbles == old(garbles), o, View())
      ensures mishaps == old(mishaps) ==> (o, View()) == CalmStage(name, old(View()), artifact)
      ensures o == Failed(OsError) ==> View() == old(View())
      // A stage that ends normally puts the artifact's bytes there under the SDK's own mode.
      ensures o.Done? ==>
                && old(sdk).Some? && artifact.Some? && backup == old(sdk)
                && sdk == Some(FileData(artifact.value.content, old(sdk).value.mode))
                && record == Recorded(Record(1, name, Sha256(old(sdk).value.content), Sha256(artifact.value.content),
                                             old(sdk).value.mode))
      // One mishap leaves no trace, unless the replacement itself had already gone through.
      ensures o.Failed? && mishaps <= old(mishaps) + 1 && View() != old(View()) ==>
                Replaced(name, old(sdk).value, artifact.value, garbles == old(garbles), View())
      // A process that dies in the write of the record, or in the copy to the backup, leaves it torn.
      ensures StageRefusal(old(View()), artifact).None? && DiesAt(old(step), old(step) + 2, recordSize) ==>
                o.Crashed? && View() == TornRecord(old(sdk).value)
      ensures StageRefusal(old(View()), artifact).None?
              && DiesAt(old(step), old(step) + 5, |old(sdk).value.content|) ==>
                o.Crashed? && View() == TornCopy(old(sdk).value, artifact.value, FateOf(old(step) + 5).written)
    {
      if sdk.None? || artifact.None? { return Failed(NotRegularFiles); }
      if backup.Some? || record != NoRecord { return Failed(TransactionExists); }
      var original := sdk.value;
      var f := Draw();                                       // hash both files, stat the SDK
      if f.Crashes? { return Crashed; }
      if f.Faults? { return Failed(OsError); }
      if Sha256(original.content) == Sha256(artifact.value.content) { return Failed(AlreadyInstalled); }
      o := WriteTransaction(original, artifact.value);
      if o.Failed? {
        var undone := UndoStage(Sha256(original.content));
        if undone.Crashed? { return Crashed; }
        if o.error == OsError { o := Failed(StageFailed); }
      }
    }

    // Lines 184-241.
    method RestoreSdk() returns (o: Outcome)
      modifies this
      ensures mishaps >= old(mishaps) && garbles >= old(garbles)
      ensures RestoreStep(name, old(View()), garbles == old(garbles), o, View())
      ensures mishaps == old(mishaps) ==> (o, View()) == CalmRestore(name, old(View()))
      ensures o.Done? ==>
                && old(record).Recorded? && Hashes(sdk, old(record).rec.original) && backup.None? && record == NoRecord
                && sdk == (if Hashes(old(sdk), old(record).rec.staged)
                           then Some(FileData(old(backup).value.content, old(record).rec.mode)) else old(sdk))
      // Only these three errors come after the replacement; every other one leaves all files alone.
      ensures o.Failed? && o.error !in {RestoreUnverified, CleanupFailed, OsError} ==> View() == old(View())
      ensures o == Failed(RestoreUnverified) ==>
                garbles > old(garbles) && backup == old(backup) && record == old(record)
    {
      if record == NoRecord { return Failed(if backup.Some? then OrphanBackup else NoTransaction); }
      var f := Draw();                                       // stat the record
      if f.Crashes? { return Crashed; }
      if f.Faults? { return Failed(OsError); }
      f := Draw();                                           // read the record
      if f.Crashes? { return Crashed; }
      if f.Faults? || record == Unreadable { return Failed(UnreadableRecord); }
      if record == Incomplete || (record.Recorded? && record.rec.version != SCHEMA_VERSION) {
        return Failed(IncompatibleRecord);
      }
      if record == Malformed { return Failed(InvalidRecord); }
      var rec := record.rec;
      if rec.sdk != name || !(0 <= rec.mode <= 0xFFF) { return Failed(InvalidRecord); }
      if sdk.None? { return Failed(SdkMissing); }

      f := Draw();                                           // hash the SDK
      if f.Crashes? { return Crashed; }
      if f.Faults? { return Failed(OsError); }
      var current := Sha256(sdk.value.content);
      if current != rec.original && current != rec.staged { return Failed(SdkChanged); }
      if current == rec.staged {
        o := ReplaceFromBackup(rec);
        if !o.Done? { return; }
      }
      o := RemoveTransaction(rec.original);
    }

    // Lines 224-231.
    method ReplaceFromBackup(rec: Record) returns (o: Outcome)
      requires 0 <= rec.mode <= 0xFFF && sdk.Some?
      modifies this`sdk, this`step, this`mishaps, this`garbles
      ensures mishaps >= old(mishaps) && garbles >= old(garbles)
      ensures o.Done? ==> Hashes(backup, rec.original) && sdk == Some(FileData(backup.value.content, rec.mode))
      ensures o == Failed(BackupUnusable) ==> sdk == old(sdk) && !Hashes(backup, rec.original)
      ensures o == Failed(RestoreUnverified) ==> garbles > old(garbles)
      ensures o.Failed? ==> o.error in {BackupUnusable, RestoreFailed, RestoreUnverified, OsError}
      ensures o == Failed(RestoreFailed) ==> sdk == old(sdk)
      ensures !Hashes(backup, rec.original) ==> sdk == old(sdk)
      ensures sdk == old(sdk) || (sdk.Some? && sdk.value.mode == rec.mode)
      ensures garbles == old(garbles) && sdk != old(sdk) ==> sdk == Some(FileData(backup.value.content, rec.mode))
      ensures mishaps == old(mishaps) ==> o == if Hashes(backup, rec.original) then Done else Failed(BackupUnusable)
    {
      if backup.None? { return Failed(BackupUnusable); }
      var same;
      o, same := CheckHash(backup, rec.original);
      if !o.Done? { return; }
      if !same { return Failed(BackupUnusable); }
      o := ReplaceSdk(backup, rec.mode);
      if o.Failed? { o := Failed(RestoreFailed); }
      if !o.Done? { return; }
      o, same := CheckHash(sdk, rec.original);
      if !o.Done? { return; }
      if !same { return Failed(RestoreUnverified); }
    }

    // Lines 233-241: the backup goes first, and only if it is the original.
    method RemoveTransaction(original: Digest) returns (o: Outcome)
      requires record != NoRecord
      modifies this`backup, this`record, this`step, this`mishaps, this`garbles
      ensures mishaps >= old(mishaps) && garbles >= old(garbles)
      ensures o.Done? ==> backup.None? && record == NoRecord
      ensures View() == old(View()) ||
              (backup.None? && record in {NoRecord, old(record)}
               && (old(backup).None? || Hashes(old(backup), original)))
      ensures o.Failed? ==> o.error in {BackupChanged, CleanupFailed}
      ensures o == Failed(BackupChanged) ==> View() == old(View()) && backup.Some? && !Hashes(backup, original)
      ensures mishaps == old(mishaps) ==>
                if old(backup).Some? && !Hashes(old(backup), original) then o == Failed(BackupChanged) else o.Done?
    {
      if backup.Some? {
        var same;
        o, same := CheckHash(backup, original);
        if o.Crashed? { return; }
        if o.Failed? { return Failed(CleanupFailed); }
        if !same { return Failed(BackupChanged); }
        var f := Draw();                                     // unlink the backup
        if f.Crashes? { return Crashed; }
        if f.Faults? { return Failed(CleanupFailed); }
        backup := None;
      }
      var f := Draw();                                       // unlink the record
      if f.Crashes? { return Crashed; }
      if f.Faults? { return Failed(CleanupFailed); }
      record := NoRecord;
      o := Done;
    }

    // Staging, lines 534-544: a refused or failed stage that leaves a record behind is rolled back.
    method StageOrRecover(artifact: FileData)
      returns (failure: Option<RunResult>, ghost events: seq<Event>, ghost disks: seq<Disk>)
      requires sdk.Some?
      modifies this
      ensures mishaps >= old(mishaps) && garbles >= old(garbles)
      ensures Run(name, disks, events) && disks[0] == old(View()) && disks[|events|] == View()
      ensures ToolOnly(events)
      ensures failure.None? ==> StageRefusal(old(View()), Some(artifact)).None?
                                && View() == StagedDisk(name, old(sdk).value, artifact)
      ensures mishaps == old(mishaps) ==> (failure.None? <==> CalmStage(name, old(View()), Some(artifact)).0.Done?)
      ensures mishaps == old(mishaps) && failure.Some? ==>
                (failure.value, None, View())
                  == CalmRun(name, old(View()), Skipped, Some(artifact), ManualCompletes, Untouched)
      // One failing file step, even after the replacement, is rolled back to the original.
      ensures old(View()) == Idle(old(sdk).value) && mishaps <= old(mishaps) + 1 && garbles == old(garbles) ==>
                failure in {None, Some(Killed)} || View() == old(View())
    {
      hide Run, StageStep, RestoreStep, CalmPlay;
      disks, events := [View()], [];
      EmptyRun(name, View());
      ghost var before := garbles;
      var stage := StageSdk(Some(artifact));
      RunExtends(name, disks, events, Stage(Some(artifact), garbles == before, stage), View());
      disks, events := disks + [View()], events + [Stage(Some(artifact), garbles == before, stage)];
      if stage.Done? { return None, events, disks; }
      if stage.Crashed? { return Some(Killed), events, disks; }
      if stage.error == OsError { return Some(Raised(Os)), events, disks; }
      failure := Some(Raised(Staging(stage.error)));
      assert old(View()) == Idle(old(sdk).value) && mishaps <= old(mishaps) + 1 && garbles == old(garbles) ==>
          View() == old(View()) || (mishaps > old(mishaps) && View() == StagedDisk(name, old(sdk).value, artifact));
      if record != NoRecord {
        before := garbles;
        var recovery := RestoreSdk();
        RunExtends(name, disks, events, Restore(garbles == before, recovery), View());
        disks, events := disks + [View()], events + [Restore(garbles == before, recovery)];
        if recovery.Crashed? { return Some(Killed), events, disks; }
        if recovery.Failed? {
          failure := Some(Raised(
            if recovery.error == OsError then Os else RecoveryFailed(stage.error, recovery.error)));
        }
      }
    }

    // The launch, lines 546-591: the game, or the wait for a game started by hand, and the log it writes to.
    method Play(launch: Launch, game: GameEffect) returns (o: Outcome, outcome: Launch)
      modifies this`sdk, this`step, this`mishaps, this`garbles
      ensures mishaps >= old(mishaps) && garbles >= old(garbles)
      ensures View() == old(View()) || (game.Writes? && View() == old(View()).(sdk := game.file))
      ensures o.Done? ==> View() == AfterGame(old(View()), outcome, game)
      ensures o.Done? || (o.Crashed? && mishaps > old(mishaps))
      ensures mishaps == old(mishaps) ==> outcome == launch
      // An OSError before the game has started means that it has not; one from closing the log keeps the exit code.
      ensures FateOf(old(step)).Faults? ==>
                o.Done? && outcome == (match launch
                                       case Exits(_) => StartFails
                                       case Stopped(_) => StartFails
                                       case StartFails => StartFails
                                       case FailsAfterStart(_) => StartFails
                                       case _ => Breaks)
      ensures FateOf(old(step)).Proceeds? && FateOf(old(step) + 1).Faults? && (launch.Exits? || launch.Stopped?) ==>
                o.Done? && outcome == FailsAfterStart(Some(launch.code))
    {
      outcome := launch;
      var f := Draw();                                       // open the log, start the game
      if f.Crashes? { return Crashed, outcome; }
      if f.Faults? {
        outcome :=
          if launch.Breaks? || launch.ManualCompletes? || launch.ManualInterrupted? then Breaks else StartFails;
      }
      if !outcome.StartFails? && game.Writes? { sdk := game.file; }
      if outcome.Exits? || outcome.Stopped? {
        f := Draw();                                         // close the log
        if f.Crashes? { return Crashed, outcome; }
        if f.Faults? { outcome := FailsAfterStart(LaunchExit(outcome)); }
      }
      o := Done;
    }

    // The launch and the restore in its `finally`, lines 545-597.
    method LaunchAndRestore(launch: Launch, game: GameEffect)
      returns (outcome: Launch, restore: Outcome, ghost events: seq<Event>, ghost disks: seq<Disk>)
      modifies this
      ensures mishaps >= old(mishaps) && garbles >= old(garbles)
      ensures Run(name, disks, events) && disks[0] == old(View()) && disks[|events|] == View()
      ensures forall e :: e in events && e.Outside? ==> game == Writes(e.file)
      ensures mishaps == old(mishaps) ==>
                outcome == launch && (restore, View()) == CalmRestore(name, AfterGame(old(View()), launch, game))
      ensures restore.Done? && old(record).Recorded? ==>
                Hashes(sdk, old(record).rec.original) && backup.None? && record == NoRecord
      ensures BackedUp(old(View())) ==> KeepsCustody(name, old(View()), game, View())
    {
      hide Run, RestoreStep, KeepsCustody, BackedUp, CalmRestore, AfterGame, Hashes;
      disks, events := [View()], [];
      EmptyRun(name, View());
      restore, outcome := Play(launch, game);
      ghost var before, played := garbles, View();
      if played != old(View()) {
        RunExtends(name, disks, events, Outside(game.file), played);
        disks, events := disks + [played], events + [Outside(game.file)];
      }
      if restore.Crashed? {
        CrashIsAStop(name, played, true);
        if BackedUp(old(View())) { PlayKeepsCustody(name, old(View()), game, played, true, restore, View()); }
        return outcome, restore, events, disks;
      }
      restore := RestoreSdk();
      if BackedUp(old(View())) {
        PlayKeepsCustody(name, old(View()), game, played, garbles == before, restore, View());
      }
      RestoreIsGuarded(name, played, garbles == before, restore, View());
      RunExtends(name, disks, events, Restore(garbles == before, restore), View());
      disks, events := disks + [View()], events + [Restore(garbles == before, restore)];
    }

    // Lines 545-622: launch, restore, write the launch record and build the bundle.
    method LaunchAndReport(original: Digest, staged: Digest, launch: Launch, game: GameEffect, bundle: bool)
      returns (result: RunResult, launchRecord: Option<LaunchRecord>, ghost events: seq<Event>, ghost disks: seq<Disk>)
      modifies this
      ensures mishaps >= old(mishaps) && garbles >= old(garbles)
      ensures Run(name, disks, events) && disks[0] == old(View()) && disks[|events|] == View()
      ensures forall e :: e in events && e.Outside? ==> game == Writes(e.file)
      ensures mishaps == old(mishaps) ==>
                (result, launchRecord, View()) == CalmPlay(name, old(View()), original, staged, launch, game)
      ensures BackedUp(old(View())) ==> KeepsCustody(name, old(View()), game, View())
      ensures launchRecord.Some? ==>
                && launchRecord.value.original == original && launchRecord.value.staged == staged
                && (launchRecord.value.restored && old(record).Recorded? ==>
                      Hashes(sdk, old(record).rec.original) && backup.None? && record == NoRecord)
    {
      hide KeepsCustody, Run, BackedUp, CalmRestore, AfterGame, Hashes;
      launchRecord := None;
      var outcome, restore;
      outcome, restore, events, disks := LaunchAndRestore(launch, game);
      if restore.Crashed? { return Killed, None, events, disks; }
      if restore == Failed(OsError) { return Raised(Os), None, events, disks; }
      if outcome.Breaks? { return Raised(LaunchBroke), None, events, disks; }

      var f := Draw();                                       // write launch.json
      if f.Crashes? { return Killed, None, events, disks; }
      if f.Faults? { return Raised(Os), None, events, disks; }
      launchRecord := Some(LaunchRecord(staged, original, LaunchExit(outcome), LaunchStatus(outcome), restore.Done?));
      if bundle {
        f := Draw();                                         // build the bundle
        if f.Crashes? { return Killed, launchRecord, events, disks; }
        if f.Faults? { return Raised(Os), launchRecord, events, disks; }
      }
      result := if restore.Failed? then Raised(NotRestored(restore.error)) else LaunchResult(outcome);
    }

    // Lines 494-622 from the artifact check on.  `events` and `disks` are the staging history of the run.
    method RunAlpha(census: Census, artifact: Option<FileData>, launch: Launch, game: GameEffect, bundle: bool)
      returns (result: RunResult, launchRecord: Option<LaunchRecord>, ghost events: seq<Event>, ghost disks: seq<Disk>)
      modifies this
      ensures mishaps >= old(mishaps) && garbles >= old(garbles)
      ensures Run(name, disks, events) && disks[0] == old(View()) && disks[|events|] == View()
      ensures forall e :: e in events && e.Outside? ==> game == Writes(e.file)
      ensures mishaps == old(mishaps) ==>
                (result, launchRecord, View()) == CalmRun(name, old(View()), census, artifact, launch, game)
      // Whatever goes wrong, the original is not lost, unless the game itself puts the original bytes back
      // under another mode.
      ensures KeepsCustody(name, old(View()), game, View())
      // Whatever goes wrong, the launch record claims a restored SDK only when it is.
      ensures launchRecord.Some? ==>
                && old(sdk).Some? && artifact.Some?
                && launchRecord.value.original == Sha256(old(sdk).value.content)
                && launchRecord.value.staged == Sha256(artifact.value.content)
                && (launchRecord.value.restored ==>
                      Hashes(sdk, launchRecord.value.original) && backup.None? && record == NoRecord)
    {
      hide KeepsCustody, Run, CalmRestore, AfterGame, StageRefusal;
      launchRecord, disks, events := None, [View()], [];
      UntouchedKeepsCustody(name, View(), game);
      EmptyRun(name, View());
      if artifact.None? { return Raised(MissingArtifact), None, events, disks; }
      if census.Fails? { return Raised(CensusFailed), None, events, disks; }
      var f := Draw();                                       // directories, census, hash both files
      if f.Crashes? { return Killed, None, events, disks; }
      if f.Faults? || sdk.None? { return Raised(Os), None, events, disks; }
      var original, staged := Sha256(sdk.value.content), Sha256(artifact.value.content);

      var failure;
      failure, events, disks := StageOrRecover(artifact.value);
      ToolRunKeepsCustody(name, disks, events);
      UntouchedKeepsCustody(name, View(), game);
      CustodyChains(name, old(View()), View(), game, View());
      ghost var middle := View();
      if failure.Some? { return failure.value, None, events, disks; }
      ghost var events', disks';
      result, launchRecord, events', disks' := LaunchAndReport(original, staged, launch, game, bundle);
      RunsJoin(name, disks, events, disks', events');
      CustodyChains(name, old(View()), middle, game, View());
      events, disks := events + events', disks + disks'[1..];
    }
  }

  // A stage killed while it writes the record, or while it copies the backup, and a restore after it: the
  // restore does not get past the torn file.
  method KilledStageIsNotRecovered(name: string, original: FileData, artifact: FileData, recordSize: nat, umask: Mode,
                                   inRecord: bool, written: nat)
    returns (d: Disk, restore: Outcome, ghost events: seq<Event>, ghost disks: seq<Disk>)
    requires Sha256(original.content) != Sha256(artifact.content)
    requires written < if inRecord then recordSize else |original.content|
    ensures Run(name, disks, events) && disks[0] == Idle(original) && disks[|events|] == d
    ensures |events| == 2 && events[0].Stage? && events[0].o.Crashed? && events[1].Restore? && events[1].o == restore
    ensures inRecord ==> d == Idle(original).(record := Unreadable)
    ensures !inRecord ==> TornBackup(d, original)
    ensures !restore.Done? && disks[1] == d && CrashState(name, d, original)
  {
    var killed := Crashes(written);
    var script :=
      if inRecord then [Proceeds, Proceeds, killed] else [Proceeds, Proceeds, Proceeds, Proceeds, Proceeds, killed];
    var folder := new SdkFolder(name, original, recordSize, umask, script);
    var start := folder.View();
    var stage := folder.StageSdk(Some(artifact));
    d := folder.View();
    restore := folder.RestoreSdk();
    events := [Stage(Some(artifact), true, stage), Restore(true, restore)];
    disks := [start, d, folder.View()];
  }
}
