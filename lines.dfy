/** The line locator: the source line number reported for a row of the record set. */
module Lines {

  /** `global_line_offset`: one line for the column names, one because lines count from 1. */
  const LineOffset: nat := 2

  /** `index + global_header_lines + global_line_offset`, with the header offset passed in. */
  function LineOf(index: nat, headerLines: nat): (line: nat)
    ensures line >= LineOffset + headerLines
  {
    index + headerLines + LineOffset
  }

  /** Later rows are reported at strictly later lines. */
  lemma LineOfStrictlyIncreasing(i: nat, j: nat, headerLines: nat)
    requires i < j
    ensures LineOf(i, headerLines) < LineOf(j, headerLines)
  {
  }

  /** Changing the header offset moves every line by the same amount. */
  lemma LineOfShift(index: nat, headerLines: nat, delta: nat)
    ensures LineOf(index, headerLines + delta) == LineOf(index, headerLines) + delta
    ensures LineOf(index, headerLines) - LineOf(index, 0) == headerLines
  {
  }
}
