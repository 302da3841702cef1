// What the staging transaction of tools/alpha_runner.py may do to its three files.
//
// `SdkFolder` in Staging.dfy is the code, one file step at a time.  This module states, for one call
// of `stage_sdk` or `restore_sdk`, which disks the call may leave behind (under crashes, faults and
// silently corrupted copies) and what it does when nothing goes wrong.

module StagingSpec {
  import opened Wrappers
  import opened Files

  const SCHEMA_VERSION := 1

  function RecordFor(name: string, original: FileData, artifact: FileData): Record {
    Record(SCHEMA_VERSION, name, Sha256(original.content), Sha256(artifact.content), original.mode)
  }

  // The record passes every check restore_sdk makes before it looks at the SDK.
  predicate ValidRecord(name: string, rec: Record) {
    rec.version == 1 && rec.sdk == name && 0 <= rec.mode <= 0xFFF
  }

  predicate Hashes(file: Option<FileData>, digest: Digest) {
    file.Some? && Sha256(file.value.content) == digest
  }

  /******* stage_sdk *******/

  // The reason stage_sdk refuses before it writes anything, if there is one.
  function StageRefusal(d: Disk, artifact: Option<FileData>): Option<Error> {
    if d.sdk.None? || artifact.None? then Some(NotRegularFiles)
    else if d.backup.Some? || d.record != NoRecord then Some(TransactionExists)
    else if Sha256(d.sdk.value.content) == Sha256(artifact.value.content) then Some(AlreadyInstalled)
    else None
  }

  function StagedDisk(name: string, original: FileData, artifact: FileData): Disk {
    Disk(Some(FileData(artifact.content, original.mode)), Some(original),
         Recorded(RecordFor(name, original, artifact)))
  }

  // The SDK file has been replaced, under a verified backup and a complete record.
  ghost predicate Replaced(name: string, original: FileData, artifact: FileData, clean: bool, d: Disk) {
    && d.record == Recorded(RecordFor(name, original, artifact))
    && d.backup == Some(original)
    && d.sdk.Some? && d.sdk.value.mode == original.mode
    && (clean ==> d.sdk.value.content == artifact.content)
  }

  // Every disk a stage of `artifact` over `original` can stop at.  `clean` says no copy was garbled.
  ghost predicate StagePoint(name: string, original: FileData, artifact: FileData, clean: bool, d: Disk) {
    var idle := Disk(Some(original), None, NoRecord);
    var rec := Recorded(RecordFor(name, original, artifact));
    || d == idle
    || d == idle.(record := Unreadable)
    || d == idle.(record := rec)
    || (d == idle.(backup := d.backup, record := rec) && d.backup.Some?
        && (clean ==> d.backup.value.content <= original.content))
    || Replaced(name, original, artifact, clean, d)
  }

  ghost predicate StageStep(name: string, d: Disk, artifact: Option<FileData>, clean: bool, o: Outcome, d': Disk) {
    if StageRefusal(d, artifact).Some? then
      d' == d && !o.Done?
    else
      && StagePoint(name, d.sdk.value, artifact.value, clean, d')
      && (o.Done? ==> d' == StagedDisk(name, d.sdk.value, artifact.value))
  }

  // stage_sdk when no file step goes wrong.
  function CalmStage(name: string, d: Disk, artifact: Option<FileData>): (Outcome, Disk) {
    match StageRefusal(d, artifact)
    case Some(e) => (Failed(e), d)
    case None => (Done, StagedDisk(name, d.sdk.value, artifact.value))
  }

  /******* restore_sdk *******/

  // The reason restore_sdk refuses before it replaces anything, if there is one.
  function RestoreRefusal(name: string, d: Disk): Option<Error> {
    match d.record
    case NoRecord => Some(if d.backup.Some? then OrphanBackup else NoTransaction)
    case Unreadable => Some(UnreadableRecord)
    case Incomplete => Some(IncompatibleRecord)
    case Malformed => Some(InvalidRecord)
    case Recorded(rec) =>
      if rec.version != SCHEMA_VERSION then Some(IncompatibleRecord)
      else if !ValidRecord(name, rec) then Some(InvalidRecord)
      else if d.sdk.None? then Some(SdkMissing)
      else if !Hashes(d.sdk, rec.original) && !Hashes(d.sdk, rec.staged) then Some(SdkChanged)
      else if Hashes(d.sdk, rec.staged) && !Hashes(d.backup, rec.original) then Some(BackupUnusable)
      else None
  }

  // The SDK file once restore_sdk has passed its checks and any replacement is done.
  function RestoredSdk(name: string, d: Disk): (sdk: Option<FileData>)
    requires RestoreRefusal(name, d).None?
    ensures Hashes(sdk, d.record.rec.original)
  {
    if Hashes(d.sdk, d.record.rec.staged) then Some(FileData(d.backup.value.content, d.record.rec.mode))
    else d.sdk
  }

  // Every disk a restore can stop at: untouched, SDK replaced, backup removed, record removed.
  ghost predicate RestorePoint(name: string, d: Disk, clean: bool, d': Disk)
    requires RestoreRefusal(name, d).None?
  {
    var replaced := d.(sdk := RestoredSdk(name, d));
    var rec := d.record.rec;
    || d' == d
    || d' == replaced
    || (d' == replaced.(backup := None) && (d.backup.None? || Hashes(d.backup, rec.original)))
    || (d' == replaced.(backup := None, record := NoRecord) && (d.backup.None? || Hashes(d.backup, rec.original)))
    || (!clean && Hashes(d.sdk, rec.staged) && d'.sdk.Some? && d'.sdk.value.mode == rec.mode
        && d' == d.(sdk := d'.sdk))
  }

  ghost predicate RestoreStep(name: string, d: Disk, clean: bool, o: Outcome, d': Disk) {
    if RestoreRefusal(name, d).Some? then
      d' == d && !o.Done?
    else
      && RestorePoint(name, d, clean, d')
      && (o.Done? ==> d' == Disk(RestoredSdk(name, d), None, NoRecord))
  }

  // restore_sdk when no file step goes wrong.
  function CalmRestore(name: string, d: Disk): (r: (Outcome, Disk))
    ensures r.0 !in {Crashed, Failed(OsError)}
  {
    if RestoreRefusal(name, d).Some? then (Failed(RestoreRefusal(name, d).value), d)
    else if d.backup.Some? && !Hashes(d.backup, d.record.rec.original) then (Failed(BackupChanged), d)
    else (Done, Disk(RestoredSdk(name, d), None, NoRecord))
  }

  /******* run_alpha *******/

  datatype Census = Skipped | Passes | Fails

  // How the launch between staging and restoring ends.  `FailsAfterStart` is an OSError once the game has
  // started, such as one from closing its log; `Breaks` is any exception the launch code does not handle.
  datatype Launch =
    | Exits(code: int) | Stopped(code: int) | StartFails | FailsAfterStart(exitCode: Option<int>)
    | ManualCompletes | ManualInterrupted | Breaks

  datatype Status = Exited | Interrupted | StartFailed | ManualComplete | NotStarted

  datatype LaunchRecord = LaunchRecord(
    staged: Digest, original: Digest, exitCode: Option<int>, status: Status, restored: bool)

  datatype RunError =
    | CensusFailed | MissingArtifact
    | Staging(error: Error) | RecoveryFailed(stage: Error, restore: Error)
    | NotRestored(error: Error) | NotStartedError | LaunchBroke | Os

  datatype RunResult = Returned(code: int) | Raised(error: RunError) | Killed

  function LaunchStatus(launch: Launch): Status {
    match launch
    case Exits(_) => Exited
    case Stopped(_) => Interrupted
    case StartFails => StartFailed
    case FailsAfterStart(_) => StartFailed
    case ManualCompletes => ManualComplete
    case ManualInterrupted => Interrupted
    case Breaks => NotStarted
  }

  function LaunchExit(launch: Launch): Option<int> {
    match launch
    case Exits(code) => Some(code)
    case Stopped(code) => Some(code)
    case FailsAfterStart(exitCode) => exitCode
    case _ => None
  }

  function LaunchResult(launch: Launch): RunResult {
    match launch
    case Exits(code) => Returned(code)
    case ManualCompletes => Returned(0)
    case Stopped(_) => Returned(130)
    case ManualInterrupted => Returned(130)
    case StartFails => Raised(NotStartedError)
    case FailsAfterStart(_) => Raised(NotStartedError)
    case Breaks => Raised(LaunchBroke)
  }

  // What the game leaves at the SDK path; `Untouched` when it writes nothing there.
  datatype GameEffect = Untouched | Writes(file: Option<FileData>)

  function AfterGame(d: Disk, launch: Launch, game: GameEffect): Disk {
    if launch.StartFails? || game.Untouched? then d else d.(sdk := game.file)
  }

  // The part of run_alpha after staging, when no file step goes wrong.
  function CalmPlay(name: string, d: Disk, original: Digest, staged: Digest, launch: Launch, game: GameEffect):
    (RunResult, Option<LaunchRecord>, Disk)
  {
    var (restore, final) := CalmRestore(name, AfterGame(d, launch, game));
    var record := LaunchRecord(staged, original, LaunchExit(launch), LaunchStatus(launch), restore.Done?);
    if launch.Breaks? then (Raised(LaunchBroke), None, final)
    else (if restore.Failed? then Raised(NotRestored(restore.error)) else LaunchResult(launch), Some(record), final)
  }

  // run_alpha when no file step goes wrong: its result, its launch record and the disk it leaves.
  function CalmRun(name: string, d: Disk, census: Census, artifact: Option<FileData>,
                   launch: Launch, game: GameEffect): (RunResult, Option<LaunchRecord>, Disk)
  {
    if artifact.None? then (Raised(MissingArtifact), None, d)
    else if census.Fails? then (Raised(CensusFailed), None, d)
    else if d.sdk.None? then (Raised(Os), None, d)
    else
      var (stage, staged) := CalmStage(name, d, artifact);
      if stage.Failed? then
        if staged.record == NoRecord then (Raised(Staging(stage.error)), None, staged)
        else
          var (recovery, recovered) := CalmRestore(name, staged);
          if recovery.Failed? then (Raised(RecoveryFailed(stage.error, recovery.error)), None, recovered)
          else (Raised(Staging(stage.error)), None, recovered)
      else
        CalmPlay(name, staged, Sha256(d.sdk.value.content), Sha256(artifact.value.content), launch, game)
  }
}
