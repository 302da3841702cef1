// The files and outcomes the staging transaction of tools/alpha_runner.py deals in.
module Files {
  import opened Bytes
  import opened Wrappers

  // Permission bits as stat.S_IMODE returns them.
  type Mode = m: int | 0 <= m <= 0xFFF

  datatype FileData = FileData(content: seq<Byte>, mode: Mode)

  // SHA-256 taken as collision free: the digest determines the content.
  datatype Digest = Digest(content: seq<Byte>)

  function Sha256(content: seq<Byte>): Digest {
    Digest(content)
  }

  datatype Record = Record(version: int, sdk: string, original: Digest, staged: Digest, mode: int)

  // `Unreadable` does not parse as a JSON object; in an `Incomplete` one a required key is missing; a `Malformed`
  // one has all keys and the right version, but a hash that is not a 64-digit hexadecimal string, or a mode that is
  // no integer.
  datatype RecordFile = NoRecord | Unreadable | Incomplete | Malformed | Recorded(rec: Record)

  datatype Disk = Disk(sdk: Option<FileData>, backup: Option<FileData>, record: RecordFile)

  // What the world does to one file step.  A copy that `Garbles` ends normally with other bytes;
  // a write that faults or crashes has put down `written` bytes.
  datatype Fate = Proceeds | Faults(written: nat) | Crashes(written: nat) | Garbles(bytes: seq<Byte>)

  datatype Error =
    | OsError
    | NotRegularFiles | TransactionExists | AlreadyInstalled
    | BackupUnverified | StagedUnverified | StageFailed
    | OrphanBackup | NoTransaction
    | UnreadableRecord | IncompatibleRecord | InvalidRecord
    | SdkMissing | SdkChanged | BackupUnusable
    | RestoreFailed | RestoreUnverified | BackupChanged | CleanupFailed

  datatype Outcome = Done | Failed(error: Error) | Crashed
}
