/** Mutants and their statuses (internal/mutator/types.go). */
module Mutants {

  datatype Status =
    | Pending
    | Killed
    | Lived
    | NotCovered
    | NotViable
    | TimedOut
    | Equivalent
    | InfraError

  function StatusString(s: Status): string {
    match s
    case Pending => "PENDING"
    case Killed => "KILLED"
    case Lived => "LIVED"
    case NotCovered => "NOT COVERED"
    case NotViable => "NOT VIABLE"
    case TimedOut => "TIMED OUT"
    case Equivalent => "EQUIVALENT"
    case InfraError => "INFRA ERROR"
  }

  /** `duration` is in nanoseconds. */
  datatype Mutant = Mutant(
    id: int,
    stableId: string,
    typ: string,
    file: string,
    relFile: string,
    line: int,
    col: int,
    original: string,
    replacement: string,
    startOffset: int,
    endOffset: int,
    coverageFile: string,
    status: Status,
    duration: nat,
    pkg: string,
    fromCache: bool,
    rechecked: bool)
}
