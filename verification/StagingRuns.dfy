// Safety and recovery over whole runs of the staging transaction.
module StagingRuns {
  import opened Wrappers
  import opened Files
  import opened StagingSpec

  /******* Runs *******/

  // One completed, failed or crashed call, or a change of the SDK file by somebody else between calls.
  datatype Event =
    | Stage(artifact: Option<FileData>, clean: bool, o: Outcome)
    | Restore(clean: bool, o: Outcome)
    | Outside(file: Option<FileData>)

  ghost predicate Step(name: string, d: Disk, e: Event, d': Disk) {
    match e
    case Stage(artifact, clean, o) => StageStep(name, d, artifact, clean, o, d')
    case Restore(clean, o) => RestoreStep(name, d, clean, o, d')
    case Outside(file) => d' == d.(sdk := file)
  }

  ghost predicate Run(name: string, ds: seq<Disk>, es: seq<Event>) {
    && |ds| == |es| + 1
    && forall i :: 0 <= i < |es| ==> Step(name, ds[i], es[i], ds[i + 1])
  }

  lemma EmptyRun(name: string, d: Disk)
    ensures Run(name, [d], [])
  {
  }

  lemma RunExtends(name: string, ds: seq<Disk>, es: seq<Event>, e: Event, d: Disk)
    requires Run(name, ds, es) && Step(name, ds[|es|], e, d)
    ensures Run(name, ds + [d], es + [e])
  {
  }

  lemma RunPrefix(name: string, ds: seq<Disk>, es: seq<Event>)
    requires Run(name, ds, es) && es != []
    ensures var n := |es| - 1; Run(name, ds[..n + 1], es[..n]) && Step(name, ds[n], es[n], ds[n + 1])
  {
  }

  lemma RunsJoin(name: string, ds: seq<Disk>, es: seq<Event>, ds': seq<Disk>, es': seq<Event>)
    requires Run(name, ds, es) && Run(name, ds', es') && ds[|es|] == ds'[0]
    ensures |ds'| > 0 && Run(name, ds + ds'[1..], es + es')
    ensures (ds + ds'[1..])[0] == ds[0] && (ds + ds'[1..])[|es + es'|] == ds'[|es'|]
  {
  }

  function Idle(original: FileData): Disk {
    Disk(Some(original), None, NoRecord)
  }

  /******* The original SDK is never lost *******/

  ghost predicate ProperRecord(name: string, rec: Record, original: FileData) {
    && ValidRecord(name, rec)
    && rec.original == Sha256(original.content) && rec.mode == original.mode
    && rec.staged != rec.original
  }

  // The original is in custody: its content and mode are at the SDK path, or in the backup under a
  // complete record of its hash and mode.  A backup exists only under a complete record.
  ghost predicate Custody(name: string, d: Disk, original: FileData) {
    match d.record
    case NoRecord => d == Idle(original)
    case Unreadable => d == Idle(original).(record := Unreadable)
    case Incomplete => false
    case Malformed => false
    case Recorded(rec) =>
      && ProperRecord(name, rec, original)
      && (d.sdk == Some(original) || d.backup == Some(original))
      && KeepsMode(d.sdk, original)
  }

  // The SDK file does not hold the original bytes under another mode.
  predicate KeepsMode(sdk: Option<FileData>, original: FileData) {
    sdk.Some? && sdk.value.content == original.content ==> sdk.value.mode == original.mode
  }

  // Without a readable record, an outside write installs a new original to protect.
  function NextOriginal(d: Disk, e: Event, original: FileData): FileData {
    if e.Outside? && !d.record.Recorded? && e.file.Some? then e.file.value else original
  }

  // Outside writes that do not themselves destroy the only copy: any file while nothing is recorded;
  // anything but the original bytes under another mode once the backup is complete.
  predicate Harmless(d: Disk, e: Event, original: FileData) {
    e.Outside? ==>
      if d.record.Recorded? then d.backup == Some(original) && KeepsMode(e.file, original) else e.file.Some?
  }

  function OriginalAt(original: FileData, ds: seq<Disk>, es: seq<Event>, n: nat): FileData
    requires n <= |es| < |ds|
  {
    if n == 0 then original else NextOriginal(ds[n - 1], es[n - 1], OriginalAt(original, ds, es, n - 1))
  }

  lemma StageKeepsCustody(name: string, d: Disk, artifact: Option<FileData>, clean: bool, o: Outcome, d': Disk,
                          original: FileData)
    requires Custody(name, d, original) && StageStep(name, d, artifact, clean, o, d')
    ensures Custody(name, d', original)
  {
  }

  lemma RestoreKeepsCustody(name: string, d: Disk, clean: bool, o: Outcome, d': Disk, original: FileData)
    requires Custody(name, d, original) && RestoreStep(name, d, clean, o, d')
    ensures Custody(name, d', original)
    ensures o.Done? ==> d' == Idle(original)
  {
  }

  lemma {:induction false} CustodyOverRuns(name: string, ds: seq<Disk>, es: seq<Event>, original: FileData, n: nat)
    requires Run(name, ds, es) && ds[0] == Idle(original) && n <= |es|
    requires forall i :: 0 <= i < |es| ==> Harmless(ds[i], es[i], OriginalAt(original, ds, es, i))
    ensures Custody(name, ds[n], OriginalAt(original, ds, es, n))
  {
    if n > 0 {
      CustodyOverRuns(name, ds, es, original, n - 1);
      var d, e, held := ds[n - 1], es[n - 1], OriginalAt(original, ds, es, n - 1);
      assert Step(name, d, e, ds[n]);
      assert Harmless(d, e, held);
      match e
      case Stage(artifact, clean, o) => StageKeepsCustody(name, d, artifact, clean, o, ds[n], held);
      case Restore(clean, o) => RestoreKeepsCustody(name, d, clean, o, ds[n], held);
      case Outside(file) =>
    }
  }

  ghost predicate ToolOnly(es: seq<Event>) {
    forall e :: e in es ==> !e.Outside?
  }

  lemma {:induction false} ToolKeepsOriginal(original: FileData, ds: seq<Disk>, es: seq<Event>, n: nat)
    requires n <= |es| < |ds| && ToolOnly(es)
    ensures OriginalAt(original, ds, es, n) == original
  {
    if n > 0 {
      ToolKeepsOriginal(original, ds, es, n - 1);
      assert !es[n - 1].Outside?;
    }
  }

  lemma {:induction false} ToolRunsKeepCustody(name: string, ds: seq<Disk>, es: seq<Event>, original: FileData)
    requires Run(name, ds, es) && ToolOnly(es) && Custody(name, ds[0], original)
    ensures Custody(name, ds[|es|], original)
  {
    if es != [] {
      var n := |es| - 1;
      RunPrefix(name, ds, es);
      ToolRunsKeepCustody(name, ds[..n + 1], es[..n], original);
      assert es[n] in es;
      match es[n]
      case Stage(artifact, clean, o) => StageKeepsCustody(name, ds[n], artifact, clean, o, ds[n + 1], original);
      case Restore(clean, o) => RestoreKeepsCustody(name, ds[n], clean, o, ds[n + 1], original);
    }
  }

  // Whatever original is in custody before is in custody after, unless the game put the original bytes back
  // under another mode.
  ghost predicate KeepsCustody(name: string, d: Disk, game: GameEffect, d': Disk) {
    forall original :: Custody(name, d, original) && (game.Writes? ==> KeepsMode(game.file, original)) ==>
                         Custody(name, d', original)
  }

  lemma UntouchedKeepsCustody(name: string, d: Disk, game: GameEffect)
    ensures KeepsCustody(name, d, game, d)
  {
  }

  lemma CustodyChains(name: string, d: Disk, middle: Disk, game: GameEffect, d': Disk)
    requires KeepsCustody(name, d, Untouched, middle) && KeepsCustody(name, middle, game, d')
    ensures KeepsCustody(name, d, game, d')
  {
  }

  lemma ToolRunKeepsCustody(name: string, ds: seq<Disk>, es: seq<Event>)
    requires Run(name, ds, es) && ToolOnly(es)
    ensures KeepsCustody(name, ds[0], Untouched, ds[|es|])
  {
    hide Custody;
    forall original | Custody(name, ds[0], original) ensures Custody(name, ds[|es|], original) {
      ToolRunsKeepCustody(name, ds, es, original);
    }
  }

  // The backup is what the record says.
  ghost predicate BackedUp(d: Disk) {
    d.record.Recorded? && Hashes(d.backup, d.record.rec.original) && d.backup.value.mode == d.record.rec.mode
  }

  // A game may leave anything else at the SDK path, and the restore after it may crash or fail anywhere.
  lemma PlayKeepsCustody(name: string, d: Disk, game: GameEffect, played: Disk, clean: bool, o: Outcome, d': Disk)
    requires BackedUp(d)
    requires played == d || (game.Writes? && played == d.(sdk := game.file))
    requires RestoreStep(name, played, clean, o, d')
    ensures KeepsCustody(name, d, game, d')
  {
  }

  lemma CrashIsAStop(name: string, d: Disk, clean: bool)
    ensures RestoreStep(name, d, clean, Crashed, d)
  {
  }

  // Any number of stage, restore and run attempts, each crashed, faulted or garbled at any file step:
  // the first original is never lost, and the restore that ends normally gives it back.
  lemma SdkNeverLost(name: string, ds: seq<Disk>, es: seq<Event>, original: FileData, n: nat)
    requires Run(name, ds, es) && ds[0] == Idle(original) && ToolOnly(es) && n <= |es|
    ensures || ds[n].sdk == Some(original)
            || (ds[n].backup == Some(original) && ds[n].record.Recorded?
                && ds[n].record.rec.original == Sha256(original.content) && ds[n].record.rec.mode == original.mode)
    ensures ds[n].backup.Some? ==> ds[n].record.Recorded?
    ensures ds[n].record.Unreadable? ==> ds[n].backup.None? && ds[n].sdk == Some(original)
    ensures n > 0 && es[n - 1].Restore? && es[n - 1].o.Done? ==> ds[n] == Idle(original)
  {
    forall i | 0 <= i < |es| ensures Harmless(ds[i], es[i], OriginalAt(original, ds, es, i)) {
      assert es[i] in es;
    }
    ToolKeepsOriginal(original, ds, es, n);
    CustodyOverRuns(name, ds, es, original, n);
    if n > 0 {
      ToolKeepsOriginal(original, ds, es, n - 1);
      CustodyOverRuns(name, ds, es, original, n - 1);
      assert Step(name, ds[n - 1], es[n - 1], ds[n]);
    }
  }

  lemma CallKeepsCustody(name: string, d: Disk, e: Event, d': Disk)
    requires Step(name, d, e, d') && !e.Outside?
    ensures KeepsCustody(name, d, Untouched, d')
  {
    hide KeepsCustody;
    ToolRunKeepsCustody(name, [d, d'], [e]);
  }

  // The same with games: any number of calls and whole runs, each stopped anywhere, whose games may leave anything
  // at the SDK path but the original bytes under another mode.
  lemma {:induction false} SdkOutlivesGames(name: string, ds: seq<Disk>, games: seq<GameEffect>, original: FileData,
                                            n: nat)
    requires |ds| == |games| + 1 && ds[0] == Idle(original) && n <= |games|
    requires forall i :: 0 <= i < |games| ==> KeepsCustody(name, ds[i], games[i], ds[i + 1])
    requires forall i :: 0 <= i < |games| && games[i].Writes? ==> KeepsMode(games[i].file, original)
    ensures Custody(name, ds[n], original)
    ensures || ds[n].sdk == Some(original)
            || (ds[n].backup == Some(original) && ds[n].record.Recorded?
                && ds[n].record.rec.original == Sha256(original.content) && ds[n].record.rec.mode == original.mode)
  {
    if n > 0 {
      SdkOutlivesGames(name, ds, games, original, n - 1);
      assert KeepsCustody(name, ds[n - 1], games[n - 1], ds[n]);
    }
  }

  // The refusals about a backup without a record, and about a record with foreign contents, are
  // unreachable by the tool's own steps.
  lemma OwnRecordsAreAccepted(name: string, d: Disk, original: FileData)
    requires Custody(name, d, original)
    ensures RestoreRefusal(name, d) !in {Some(OrphanBackup), Some(IncompatibleRecord), Some(InvalidRecord)}
    ensures RestoreRefusal(name, d) == Some(SdkMissing) ==> d.backup == Some(original)
  {
  }

  /******* Exact recoverability *******/

  // Reachable when copies are never garbled: every stop of a stage or of a restore.
  ghost predicate CrashState(name: string, d: Disk, original: FileData) {
    && Custody(name, d, original)
    && (d.record.Recorded? ==>
          || (d.sdk == Some(original) && (d.backup.Some? ==> d.backup.value.content <= original.content))
          || (d.backup == Some(original) && Hashes(d.sdk, d.record.rec.staged)))
  }

  ghost predicate TornBackup(d: Disk, original: FileData) {
    d.backup.Some? && d.backup.value.content < original.content
  }

  predicate Clean(e: Event) {
    !e.Outside? && e.clean
  }

  lemma CleanStepKeepsCrashState(name: string, d: Disk, e: Event, d': Disk, original: FileData)
    requires CrashState(name, d, original) && Step(name, d, e, d') && Clean(e)
    ensures CrashState(name, d', original)
  {
    match e
    case Stage(artifact, clean, o) => StageKeepsCustody(name, d, artifact, clean, o, d', original);
    case Restore(clean, o) =>
      RestoreKeepsCustody(name, d, clean, o, d', original);
      if RestoreRefusal(name, d).None? { assert RestoredSdk(name, d) == Some(original); }
  }

  lemma {:induction false} CleanRunsReachCrashStates(name: string, ds: seq<Disk>, es: seq<Event>, original: FileData)
    requires Run(name, ds, es) && ds[0] == Idle(original) && forall e :: e in es ==> Clean(e)
    ensures CrashState(name, ds[|es|], original)
  {
    if es != [] {
      var n := |es| - 1;
      RunPrefix(name, ds, es);
      CleanRunsReachCrashStates(name, ds[..n + 1], es[..n], original);
      assert es[n] in es;
      CleanStepKeepsCrashState(name, ds[n], es[n], ds[n + 1], original);
    }
  }

  // From a crash state, a restore in which nothing goes wrong succeeds except in three kinds of state,
  // and in those the SDK still is the original and the restore changes nothing.
  lemma ExactRecovery(name: string, d: Disk, original: FileData)
    requires CrashState(name, d, original)
    ensures CalmRestore(name, d) == (Done, Idle(original)) <==>
              !(d.record == NoRecord || d.record == Unreadable || TornBackup(d, original))
    ensures d.record == NoRecord || d.record == Unreadable || TornBackup(d, original) ==>
              d.sdk == Some(original) && CalmRestore(name, d).0.Failed? && CalmRestore(name, d).1 == d
  {
  }

  // After any run of crashed, faulted and completed calls from an idle installation: one restore in which
  // nothing goes wrong gives back the original, except in the three kinds of state.
  lemma RecoveryAfterAnyRun(name: string, ds: seq<Disk>, es: seq<Event>, original: FileData)
    requires Run(name, ds, es) && ds[0] == Idle(original) && forall e :: e in es ==> Clean(e)
    ensures var d := ds[|es|];
            var excepted := d.record == NoRecord || d.record == Unreadable || TornBackup(d, original);
            && (CalmRestore(name, d) == (Done, Idle(original)) <==> !excepted)
            && (excepted ==> d.sdk == Some(original) && CalmRestore(name, d).1 == d)
  {
    CleanRunsReachCrashStates(name, ds, es, original);
    ExactRecovery(name, ds[|es|], original);
  }

  ghost predicate Recoverable(name: string, d: Disk, original: FileData) {
    CrashState(name, d, original) && d.record.Recorded? && !TornBackup(d, original)
  }

  // Restores may crash or fault anywhere, any number of times: one more restore in which nothing
  // goes wrong leaves the original SDK and no transaction.
  lemma {:induction false} RetriedRestoresRecover(name: string, ds: seq<Disk>, es: seq<Event>, original: FileData)
    requires Run(name, ds, es) && Recoverable(name, ds[0], original)
    requires forall e :: e in es ==> e.Restore? && e.clean
    ensures ds[|es|] == Idle(original) || Recoverable(name, ds[|es|], original)
    ensures CalmRestore(name, ds[|es|]).1 == Idle(original)
  {
    if es != [] {
      var n := |es| - 1;
      RunPrefix(name, ds, es);
      RetriedRestoresRecover(name, ds[..n + 1], es[..n], original);
      var d := ds[n];
      assert es[n] in es;
      CleanStepKeepsCrashState(name, d, es[n], ds[n + 1], original) by { assert CrashState(name, d, original); }
      if RestoreRefusal(name, d).None? { assert RestoredSdk(name, d) == Some(original); }
    }
    if ds[|es|] != Idle(original) { ExactRecovery(name, ds[|es|], original); }
  }

  lemma TornStateStays(name: string, d: Disk, e: Event, d': Disk, original: FileData)
    requires CrashState(name, d, original) && (d.record.Unreadable? || TornBackup(d, original))
    requires Step(name, d, e, d') && !e.Outside?
    ensures d' == d && !e.o.Done?
  {
  }

  // The excepted states with files left behind are dead ends: no run of stages and restores leaves them.
  lemma {:induction false} TornStatesAreDeadEnds(name: string, ds: seq<Disk>, es: seq<Event>, original: FileData)
    requires Run(name, ds, es) && ToolOnly(es)
    requires CrashState(name, ds[0], original) && (ds[0].record.Unreadable? || TornBackup(ds[0], original))
    ensures ds[|es|] == ds[0] && forall e :: e in es ==> !e.o.Done?
  {
    if es != [] {
      var n := |es| - 1;
      RunPrefix(name, ds, es);
      TornStatesAreDeadEnds(name, ds[..n + 1], es[..n], original);
      assert es[n] in es && es == es[..n] + [es[n]];
      TornStateStays(name, ds[n], es[n], ds[n + 1], original);
    }
  }

  /******* restore_sdk from any disk *******/

  // On any disk whatever, a restore changes the SDK only from the recorded staged content to the
  // recorded original, takes nothing away before the SDK is the original, and removes the record last.
  lemma RestoreIsGuarded(name: string, d: Disk, clean: bool, o: Outcome, d': Disk)
    requires RestoreStep(name, d, clean, o, d')
    ensures d'.sdk != d.sdk ==>
              && d.record.Recorded? && Hashes(d.sdk, d.record.rec.staged) && Hashes(d.backup, d.record.rec.original)
              && (clean ==> Hashes(d'.sdk, d.record.rec.original))
    ensures d' != d && (d'.backup != d.backup || d'.record != d.record) ==>
              && d'.backup.None? && d'.record in {NoRecord, d.record}
              && d.record.Recorded? && Hashes(d'.sdk, d.record.rec.original)
              && (d.backup.None? || Hashes(d.backup, d.record.rec.original))
    ensures o.Done? ==> d.record.Recorded? && Hashes(d'.sdk, d.record.rec.original)
                        && d'.backup.None? && d'.record == NoRecord
  {
  }

  // A restore over the tool's own record, whatever somebody else has put at the SDK and the backup path: exactly
  // when it gives back the original content and mode, and what it does otherwise.  The original bytes under
  // another mode are accepted as they are and the backup is given up.
  lemma RestoreAfterOutsideWrite(name: string, d: Disk, rec: Record, original: FileData)
    requires d.record == Recorded(rec) && ProperRecord(name, rec, original)
    ensures CalmRestore(name, d) == (Done, Idle(original)) <==>
              if Hashes(d.sdk, rec.staged) then Hashes(d.backup, rec.original)
              else d.sdk == Some(original) && (d.backup.None? || Hashes(d.backup, rec.original))
    ensures !KeepsMode(d.sdk, original) && (d.backup.None? || Hashes(d.backup, rec.original)) ==>
              CalmRestore(name, d) == (Done, d.(backup := None, record := NoRecord)) && d.sdk != Some(original)
    ensures (!Hashes(d.sdk, rec.staged) && !Hashes(d.sdk, rec.original))
            || (d.backup.Some? && !Hashes(d.backup, rec.original)) || (d.backup.None? && Hashes(d.sdk, rec.staged)) ==>
              CalmRestore(name, d).0.Failed? && CalmRestore(name, d).1 == d
  {
  }

  // On any disk: a restore that ends normally gives back the recorded mode exactly when it replaced the SDK or
  // the SDK had that mode already.
  lemma ModeIsRestored(name: string, d: Disk)
    ensures CalmRestore(name, d).0.Done? ==>
              (CalmRestore(name, d).1.sdk.value.mode == d.record.rec.mode <==>
                 Hashes(d.sdk, d.record.rec.staged) || d.sdk.value.mode == d.record.rec.mode)
  {
  }

  // The mode is lost over a complete backup, and also when a crashed stage has made none.
  lemma ModeIsLost(name: string)
    ensures var original, changed := FileData([7], 0x1ED), FileData([7], 0x180);
            var rec := RecordFor(name, original, FileData([8], 0x1ED));
            && ProperRecord(name, rec, original)
            && CalmRestore(name, Disk(Some(changed), Some(original), Recorded(rec))) == (Done, Idle(changed))
            && CalmRestore(name, Disk(Some(changed), None, Recorded(rec))) == (Done, Idle(changed))
  {
  }

  /******* run_alpha *******/

  // A run met by an unfinished transaction recovers it and reports an error; the next run stages.
  lemma RunConverges(name: string, d: Disk, original: FileData, census: Census, artifact: FileData,
                     launch: Launch, game: GameEffect, census': Census, artifact': FileData,
                     launch': Launch)
    requires Recoverable(name, d, original) && !census.Fails? && !census'.Fails?
    requires Sha256(artifact'.content) != Sha256(original.content)
    ensures var (result, record, next) := CalmRun(name, d, census, Some(artifact), launch, game);
            && result == Raised(Staging(TransactionExists)) && record.None? && next == Idle(original)
            && CalmStage(name, next, Some(artifact')) == (Done, StagedDisk(name, original, artifact'))
            && CalmRun(name, next, census', Some(artifact'), launch', Untouched).2 == Idle(original)
  {
  }

  // Exit code and status of a launch that is over, as the launch record has them.
  predicate Records(launch: Launch, record: LaunchRecord) {
    match launch
    case Exits(code) => record.exitCode == Some(code) && record.status == Exited
    case Stopped(code) => record.exitCode == Some(code) && record.status == Interrupted
    case StartFails => record.exitCode == None && record.status == StartFailed
    case FailsAfterStart(code) => record.exitCode == code && record.status == StartFailed
    case ManualCompletes => record.exitCode == None && record.status == ManualComplete
    case ManualInterrupted => record.exitCode == None && record.status == Interrupted
    case Breaks => false
  }

  // What the caller gets: the game's own exit code, 130 for an interrupted run, an error if it never ran properly.
  predicate Answers(launch: Launch, result: RunResult) {
    match launch
    case Exits(code) => result == Returned(code)
    case Stopped(_) => result == Returned(130)
    case StartFails => result == Raised(NotStartedError)
    case FailsAfterStart(_) => result == Raised(NotStartedError)
    case ManualCompletes => result == Returned(0)
    case ManualInterrupted => result == Returned(130)
    case Breaks => result == Raised(LaunchBroke)
  }

  // Every launch outcome restores when the game leaves the SDK alone, and is reported as it was.
  lemma RunRestores(name: string, original: FileData, census: Census, artifact: FileData, launch: Launch)
    requires !census.Fails? && Sha256(artifact.content) != Sha256(original.content)
    ensures var (result, record, d) := CalmRun(name, Idle(original), census, Some(artifact), launch, Untouched);
            && d == Idle(original)
            && Answers(launch, result) && (record.None? <==> launch.Breaks?)
            && (record.Some? ==>
                  && record.value.restored && Records(launch, record.value)
                  && record.value.original == Sha256(original.content)
                  && record.value.staged == Sha256(artifact.content))
  {
  }

  // A missing artifact, a failed census or a missing SDK ends the run before anything is touched, in that order.
  lemma RunRefuses(name: string, d: Disk, census: Census, artifact: Option<FileData>, launch: Launch, game: GameEffect)
    ensures artifact.None? ==> CalmRun(name, d, census, artifact, launch, game) == (Raised(MissingArtifact), None, d)
    ensures artifact.Some? && census.Fails? ==>
              CalmRun(name, d, census, artifact, launch, game) == (Raised(CensusFailed), None, d)
    ensures artifact.Some? && !census.Fails? && d.sdk.None? ==>
              CalmRun(name, d, census, artifact, launch, game) == (Raised(Os), None, d)
  {
  }

  // The game's write reaches the SDK path unless the game never started.
  lemma GameIsSeen(name: string, original: FileData, artifact: FileData, launch: Launch, file: FileData)
    requires Sha256(artifact.content) != Sha256(original.content)
    requires file.content != original.content && file.content != artifact.content
    ensures CalmRun(name, Idle(original), Skipped, Some(artifact), launch, Writes(Some(file))).2.sdk
              == if launch == StartFails then Some(original) else Some(file)
  {
  }

  // A game that leaves anything else at the SDK path gets no restore, says so in the launch record, and
  // the backup still holds the original.
  lemma RunReportsForeignSdk(name: string, original: FileData, census: Census, artifact: FileData, launch: Launch,
                             file: Option<FileData>)
    requires !census.Fails? && Sha256(artifact.content) != Sha256(original.content)
    requires !launch.StartFails? && !launch.Breaks?
    requires !Hashes(file, Sha256(original.content)) && !Hashes(file, Sha256(artifact.content))
    ensures var (result, record, d) := CalmRun(name, Idle(original), census, Some(artifact), launch, Writes(file));
            && result.Raised? && result.error.NotRestored?
            && record.Some? && !record.value.restored && Records(launch, record.value)
            && d == StagedDisk(name, original, artifact).(sdk := file) && Custody(name, d, original)
  {
  }
}
