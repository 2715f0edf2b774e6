/** The records the recommender reads and the results it returns. */
module FitData {
  import opened Wrappers

  /**
   * One knowledge-base entry, a JSON object read from the fitting data file.
   * Each field is `None` when the object lacks that key; other keys of the
   * object (such as `common_issues`) are never read and are not modelled.
   */
  datatype Profile = Profile(
    description: Option<string>,
    recommendation: Option<string>,
    reasoning: Option<string>,
    fitTips: Option<string>)

  /**
   * The dictionary `get_recommendation` returns: a match taken from a profile,
   * the fixed default when no profile is close enough, or `{"error": str(e)}`.
   */
  datatype Outcome =
    | Match(recommendation: string, confidence: real, reasoning: string, fitTips: string, identifiedIssues: seq<string>)
    | Default(recommendation: string, confidence: real, reasoning: string, fitTips: string)
    | Error(message: string)

  /** `str(KeyError(key))`: the key between single quotes. */
  function KeyErrorMessage(key: string): (r: string)
    ensures |r| == |key| + 2 && r[0] == '\'' && r[|r| - 1] == '\''
    ensures r[1..|r| - 1] == key
  {
    "'" + key + "'"
  }
}
