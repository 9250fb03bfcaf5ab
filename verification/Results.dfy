/** Vocabulary that several components share. */
module Options {
  datatype Option<T> = None | Some(value: T)
}

/** The status column of the results table (db.go). */
module Results {
  datatype ResultStatus = Pending | Validated | Finalized | Disputed | Voided | Superseded

  /** Rows under the partial unique index results_canonical_pu_unique. */
  predicate Live(status: ResultStatus) { status != Superseded && status != Voided }
}
