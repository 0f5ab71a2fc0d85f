/** The vesting kinds shared by the CSV validator, the batch builder and the previews. */
module Schedules {

  datatype Kind = Linear | Cliff | LinearWithCliff | Graded

  /** One CSV row that passed validation. */
  datatype ValidatedRow = ValidatedRow(
    rowIndex: nat,
    beneficiary: string,
    token: string,
    amountXlm: string,
    amountStroops: int,
    startTime: int,
    durationDays: int,
    cliffDays: int,
    kind: Kind,
    revocable: bool)

  /** What a validated row promises to the batch builder and the contract. */
  predicate ScheduleRow(row: ValidatedRow) {
    row.durationDays > 0 && 0 <= row.cliffDays < row.durationDays && row.amountStroops >= 0
  }

  function TotalStroops(rows: seq<ValidatedRow>): int {
    if rows == [] then 0 else TotalStroops(rows[..|rows| - 1]) + rows[|rows| - 1].amountStroops
  }
}
