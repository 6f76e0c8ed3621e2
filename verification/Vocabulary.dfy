// The result-status vocabulary (CR 25) shared by every capture path.
module Vocabulary {
  datatype Status =
    | Unset | DNS | DNF | NM | NH | DQ
    | Cleared | Failed | Passed | Retired
    | ByPlace | ByTime
    | Other(code: string)

  // Statuses an operator may set directly; a disqualification names its rule, others do not.
  predicate OperatorSettable(status: Status) {
    status.DNS? || status.DNF? || status.DQ? || status.NM?
  }

  predicate ValidCaptureStatus(status: Status, detail: string) {
    OperatorSettable(status) && (status.DQ? <==> detail != "")
  }
}
