/** Failures an operation can report, and the result type that carries them. */
module Errors {

  datatype Error =
    | Device
    | InvalidSectorSize
    | InvalidPartitionTable
    | PartitionNotFound
    | InvalidBootSector
    | UnsupportedSectorSize
    | UnsupportedClusterSize
    | Corrupt
    | FileChainInvalid
    | BootGeometryCorrupt
    | RootDirectoryCorrupt
    | UpcaseTableCorrupt
    | UpcaseChecksumMismatch
    | UpcaseDescriptorInvalid
    | UpcaseChainInvalid
    | PathNotFound
    | NotDirectory
    | NoSpace
    | InvalidPath
    | NameTooLong
    | IsDirectory
    | DirectoryNotEmpty
    | EndOfFile

  datatype Result<+T> = Ok(value: T) | Err(error: Error)

  /** How many of the first `n` operations fail. */
  ghost function Failures(faulty: nat -> bool, n: nat): nat {
    if n == 0 then 0 else Failures(faulty, n - 1) + if faulty(n - 1) then 1 else 0
  }

  lemma {:induction false} FailuresBetween(faulty: nat -> bool, from: nat, to: nat)
    requires from <= to
    ensures Failures(faulty, from) <= Failures(faulty, to)
    ensures Failures(faulty, from) < Failures(faulty, to) <==> exists t :: from <= t < to && faulty(t)
  {
    if from < to { FailuresBetween(faulty, from, to - 1); }
  }

  /** An operation numbered from `from` up to `to` has failed. */
  ghost predicate FailedIn(faulty: nat -> bool, from: nat, to: nat) {
    Failures(faulty, from) < Failures(faulty, to)
  }

  /** Between those times `failed` says whether an operation has failed. */
  ghost predicate Honest(faulty: nat -> bool, from: nat, to: nat, failed: bool) {
    && from <= to
    && if failed then FailedIn(faulty, from, to) else Failures(faulty, from) == Failures(faulty, to)
  }
}
