/** The exceptions the pipeline's stages can raise on their inputs, and how a
    stage ended. Every stage catches its exception and reports it; whatever it
    had written before the exception stays in its output file. */
module Outcomes {

  /** Python's `IndexError`, with the two messages the stages can produce. */
  datatype PyError =
    | StringIndexOutOfRange  // `line[21]` on a line of 21 characters or fewer
    | ListIndexOutOfRange    // `parts[2]` or `parts[5]` on a split with too few tokens

  datatype Result<T> = Ok(value: T) | Err(error: PyError)

  /** How a stage's loop ended: it ran to the end of its input, or an
      exception left it early. */
  datatype Status = Completed | Aborted(error: PyError)
}
