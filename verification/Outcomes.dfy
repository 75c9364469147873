/** Results of calls, shared by the modules. */
module Outcomes {

  /** A call that a failing assert may stop. */
  datatype Outcome<+T> = Stopped | Done(value: T)

  /** The return codes that matter here. */
  datatype RC = RCOK | Abort | TimeOut | Other
}
