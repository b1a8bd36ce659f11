/** What a layer of the edit tool answers: the updated text, or how many places matched instead of one. */
module EditOutcome {
  import opened Utf8

  datatype Outcome = Applied(updated: Text) | NotApplied(matches: nat)
}
