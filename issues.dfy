/**
 * `identify_fit_issues`: a fixed table maps complaint keywords to issue tags;
 * the tags whose keyword occurs in the lower-cased query are collected in
 * table order.
 */
module Issues {
  import opened Text

  /** The `common_problems` dictionary, in insertion order: (keyword, issue tag). */
  const CommonProblems: seq<(string, string)> := [
    ("riding up", "band_riding_up"),
    ("falling", "straps_falling"),
    ("digging", "straps_digging"),
    ("wrinkle", "cup_wrinkling"),
    ("overflow", "quadraboob")
  ]

  /** The tags of the first `n` table entries whose keyword occurs in `lowered`, in table order. */
  function IssuesUpTo(lowered: string, n: nat): seq<string>
    requires n <= |CommonProblems|
  {
    if n == 0 then []
    else
      var (keyword, issue) := CommonProblems[n - 1];
      IssuesUpTo(lowered, n - 1) + (if Contains(lowered, keyword) then [issue] else [])
  }

  /** What `identify_fit_issues(query)` returns. */
  function DetectedIssues(query: string): seq<string> {
    IssuesUpTo(Lower(query), |CommonProblems|)
  }

  /** `identify_fit_issues`: one pass over the table, appending each tag whose keyword occurs. */
  method IdentifyFitIssues(query: string) returns (issues: seq<string>)
    ensures issues == DetectedIssues(query)
  {
    issues := [];
    for i := 0 to |CommonProblems|
      invariant issues == IssuesUpTo(Lower(query), i)
    {
      var (keyword, issue) := CommonProblems[i];
      if Contains(Lower(query), keyword) {
        issues := issues + [issue];
      }
    }
  }

  /** Entry `i` of the table is detected in `query`. */
  predicate Detects(query: string, i: nat)
    requires i < |CommonProblems|
  {
    Contains(Lower(query), CommonProblems[i].0)
  }

  lemma {:induction false} IssuesUpToIff(lowered: string, n: nat, tag: string)
    requires n <= |CommonProblems|
    ensures tag in IssuesUpTo(lowered, n) <==>
      exists i :: 0 <= i < n && CommonProblems[i].1 == tag && Contains(lowered, CommonProblems[i].0)
    decreases n
  {
    if n > 0 {
      IssuesUpToIff(lowered, n - 1, tag);
    }
  }

  /**
   * A tag is reported exactly when the keyword of one of its table entries is
   * a case-insensitive substring of the query.
   */
  lemma DetectedIff(query: string, tag: string)
    ensures tag in DetectedIssues(query) <==>
      exists i :: 0 <= i < |CommonProblems| && CommonProblems[i].1 == tag && Detects(query, i)
  {
    IssuesUpToIff(Lower(query), |CommonProblems|, tag);
  }

  /** Nothing is reported exactly when no keyword occurs in the query. */
  lemma NothingDetectedIff(query: string)
    ensures DetectedIssues(query) == [] <==> forall i :: 0 <= i < |CommonProblems| ==> !Detects(query, i)
  {
    var r := DetectedIssues(query);
    if r != [] {
      DetectedIff(query, r[0]);
    }
    forall i | 0 <= i < |CommonProblems| && Detects(query, i) ensures r != [] {
      DetectedIff(query, CommonProblems[i].1);
    }
  }

  /** The position of `tag` in the table, or the table's length when it is not a tag. */
  function TagIndex(tag: string, from: nat): (k: nat)
    requires from <= |CommonProblems|
    ensures from <= k <= |CommonProblems|
    ensures k < |CommonProblems| ==> CommonProblems[k].1 == tag
    ensures forall j :: from <= j < k ==> CommonProblems[j].1 != tag
    decreases |CommonProblems| - from
  {
    if from == |CommonProblems| then from
    else if CommonProblems[from].1 == tag then from
    else TagIndex(tag, from + 1)
  }

  /** The five tags are distinct. */
  lemma TagsDistinct()
    ensures forall a, b :: 0 <= a < b < |CommonProblems| ==> CommonProblems[a].1 != CommonProblems[b].1
  {
  }

  lemma TagIndexOfEntry(i: nat)
    requires i < |CommonProblems|
    ensures TagIndex(CommonProblems[i].1, 0) == i
  {
    TagsDistinct();
  }

  lemma {:induction false} IssuesUpToOrdered(lowered: string, n: nat)
    requires n <= |CommonProblems|
    ensures forall a :: 0 <= a < |IssuesUpTo(lowered, n)| ==> TagIndex(IssuesUpTo(lowered, n)[a], 0) < n
    ensures forall a, b :: 0 <= a < b < |IssuesUpTo(lowered, n)| ==>
      TagIndex(IssuesUpTo(lowered, n)[a], 0) < TagIndex(IssuesUpTo(lowered, n)[b], 0)
    decreases n
  {
    if n > 0 {
      IssuesUpToOrdered(lowered, n - 1);
      TagIndexOfEntry(n - 1);
    }
  }

  /**
   * The tags come out in table order and none is repeated: their table
   * positions strictly increase.
   */
  lemma DetectedInTableOrder(query: string)
    ensures forall a :: 0 <= a < |DetectedIssues(query)| ==> TagIndex(DetectedIssues(query)[a], 0) < |CommonProblems|
    ensures forall a, b :: 0 <= a < b < |DetectedIssues(query)| ==>
      TagIndex(DetectedIssues(query)[a], 0) < TagIndex(DetectedIssues(query)[b], 0)
    ensures forall a, b :: 0 <= a < b < |DetectedIssues(query)| ==> DetectedIssues(query)[a] != DetectedIssues(query)[b]
  {
    IssuesUpToOrdered(Lower(query), |CommonProblems|);
  }

  /** Lower-casing the query first changes nothing: detection is case-insensitive. */
  lemma DetectionIgnoresCase(query: string)
    ensures DetectedIssues(Lower(query)) == DetectedIssues(query)
  {
    assert Lower(Lower(query)) == Lower(query);
  }
}
