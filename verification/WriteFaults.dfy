/** Failures of calls that change something. */
module WriteFaults {

  /** A call works, or is reported as failed before or after it has taken effect. */
  datatype Fault = Works | FailsBefore | FailsAfter
}
