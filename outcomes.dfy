/** Optional values and rule verdicts shared by every part of the model. */
module Outcomes {

  /** A value that may be absent (Python's `None`). */
  datatype Option<T> = None | Some(value: T)

  /** The verdict of an eligibility rule: the source's pair `(True, "")` is
      `Pass`, and `(False, message)` is `Fail(message)`. */
  datatype Outcome = Pass | Fail(reason: string)
}
