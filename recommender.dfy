/**
 * `BraFittingRAG`: scores every knowledge-base profile against the query,
 * keeps those strictly above the similarity threshold, and answers with the
 * best of them, with a fixed default when none is kept, or with the error
 * text of the first exception raised.
 */
module Recommender {
  import opened Wrappers
  import opened Text
  import opened FitData
  import opened Scoring
  import opened Issues

  /** The threshold `__init__` sets. */
  const SimilarityThreshold: real := 0.9

  /** The answer when no profile is kept. */
  const DefaultOutcome: Outcome := Default(
    "34B", 0.3,
    "Unable to find exact match. Please measure again.",
    "Please consult our measurement guide.")

  /** An entry of `relevant_fits`: a profile and its similarity to the query. */
  datatype Fit = Fit(context: Profile, similarity: real)

  /**
   * `relevant_fits` after the loop has visited `kb`: the profiles whose
   * similarity is strictly above `threshold`, in order, or the message of the
   * first `KeyError` raised while scoring.
   */
  function RelevantFits(query: string, kb: seq<Profile>, threshold: real): Result<seq<Fit>>
    decreases |kb|
  {
    if kb == [] then Success([])
    else
      match RelevantFits(query, kb[..|kb| - 1], threshold)
      case Failure(e) => Failure(e)
      case Success(fits) =>
        var context := kb[|kb| - 1];
        match FitSimilarity(query, context)
        case Failure(e) => Failure(e)
        case Success(similarity) =>
          Success(if similarity > threshold then fits + [Fit(context, similarity)] else fits)
  }

  /**
   * `max(fits, key=similarity)`: the index of the first entry of greatest
   * similarity, found by a left-to-right scan that replaces the candidate only
   * on a strictly greater similarity.
   */
  function FirstMaxIndex(fits: seq<Fit>): (k: nat)
    requires |fits| > 0
    ensures k < |fits|
    ensures forall j :: 0 <= j < |fits| ==> fits[j].similarity <= fits[k].similarity
    ensures forall j :: 0 <= j < k ==> fits[j].similarity < fits[k].similarity
    decreases |fits|
  {
    if |fits| == 1 then 0
    else
      var k := FirstMaxIndex(fits[..|fits| - 1]);
      if fits[|fits| - 1].similarity > fits[k].similarity then |fits| - 1 else k
  }

  /**
   * The result dictionary built from the best fit; its keys are read in order
   * and the first missing one raises `KeyError`.
   */
  function Assemble(best: Fit, issues: seq<string>): (r: Outcome)
    ensures r.Match? <==>
      best.context.recommendation.Some? && best.context.reasoning.Some? && best.context.fitTips.Some?
    ensures r.Match? ==>
      r == Match(best.context.recommendation.value, best.similarity, best.context.reasoning.value,
                 best.context.fitTips.value, issues)
    ensures !r.Match? ==> r.Error? && |r.message| > 0 && r.message[0] == '\''
    ensures best.context.recommendation.None? ==> r == Error(KeyErrorMessage("recommendation"))
    ensures best.context.recommendation.Some? && best.context.reasoning.None? ==>
      r == Error(KeyErrorMessage("reasoning"))
    ensures best.context.recommendation.Some? && best.context.reasoning.Some? && best.context.fitTips.None? ==>
      r == Error(KeyErrorMessage("fit_tips"))
  {
    match best.context.recommendation
    case None => Error(KeyErrorMessage("recommendation"))
    case Some(recommendation) =>
      match best.context.reasoning
      case None => Error(KeyErrorMessage("reasoning"))
      case Some(reasoning) =>
        match best.context.fitTips
        case None => Error(KeyErrorMessage("fit_tips"))
        case Some(tips) => Match(recommendation, best.similarity, reasoning, tips, issues)
  }

  /** What `get_recommendation(query)` returns for the knowledge base `kb` and the threshold. */
  function Recommend(kb: seq<Profile>, threshold: real, query: string): Outcome {
    if Strip(query) == [] then Error("Empty query")
    else
      match RelevantFits(query, kb, threshold)
      case Failure(e) => Error(e)
      case Success(fits) =>
        if fits == [] then DefaultOutcome
        else Assemble(fits[FirstMaxIndex(fits)], DetectedIssues(query))
  }

  class BraFittingRag {
    var knowledgeBase: seq<Profile>
    var similarityThreshold: real

    /** `__init__`, with the knowledge base given instead of read from disk. */
    constructor (kb: seq<Profile>)
      ensures knowledgeBase == kb
      ensures similarityThreshold == SimilarityThreshold
    {
      knowledgeBase := kb;
      similarityThreshold := SimilarityThreshold;
    }

    /** `get_recommendation`; it only reads the two fields. */
    method GetRecommendation(query: string) returns (r: Outcome)
      ensures r == Recommend(knowledgeBase, similarityThreshold, query)
    {
      if Strip(query) == [] {
        return Error("Empty query");
      }
      var identifiedIssues := IdentifyFitIssues(query);
      var relevantFits: seq<Fit> := [];
      for i := 0 to |knowledgeBase|
        invariant RelevantFits(query, knowledgeBase[..i], similarityThreshold) == Success(relevantFits)
      {
        var context := knowledgeBase[i];
        var similarity := FitSimilarity(query, context);
        RelevantFitsStep(query, knowledgeBase, similarityThreshold, i, relevantFits);
        if similarity.Failure? {
          FailureIsFinal(query, knowledgeBase, similarityThreshold, i + 1);
          return Error(similarity.error);
        }
        if similarity.value > similarityThreshold {
          relevantFits := relevantFits + [Fit(context, similarity.value)];
        }
      }
      assert knowledgeBase[..|knowledgeBase|] == knowledgeBase;
      if relevantFits == [] {
        return DefaultOutcome;
      }
      var bestMatch := relevantFits[FirstMaxIndex(relevantFits)];
      r := Assemble(bestMatch, identifiedIssues);
    }
  }

  /** One more iteration of the scan over the knowledge base. */
  lemma RelevantFitsStep(query: string, kb: seq<Profile>, threshold: real, i: nat, fits: seq<Fit>)
    requires i < |kb|
    requires RelevantFits(query, kb[..i], threshold) == Success(fits)
    ensures RelevantFits(query, kb[..i + 1], threshold) ==
      match FitSimilarity(query, kb[i])
      case Failure(e) => Failure(e)
      case Success(similarity) => Success(if similarity > threshold then fits + [Fit(kb[i], similarity)] else fits)
  {
    assert kb[..i + 1][..i] == kb[..i];
  }

  /** An exception raised while scoring a prefix ends the whole scan with that message. */
  lemma {:induction false} FailureIsFinal(query: string, kb: seq<Profile>, threshold: real, i: nat)
    requires i <= |kb|
    requires RelevantFits(query, kb[..i], threshold).Failure?
    ensures RelevantFits(query, kb, threshold) == RelevantFits(query, kb[..i], threshold)
    decreases |kb| - i
  {
    if i < |kb| {
      assert kb[..i + 1][..i] == kb[..i];
      FailureIsFinal(query, kb, threshold, i + 1);
    } else {
      assert kb[..i] == kb;
    }
  }

  // ---------------------------------------------------------------- reference description

  /** The profile has a description whose measurement list is the query's, and it is not empty. */
  predicate Matches(query: string, p: Profile) {
    p.description.Some? && Measurements(query) != [] && Measurements(query) == Measurements(p.description.value)
  }

  predicate AllDescribed(kb: seq<Profile>) {
    forall i :: 0 <= i < |kb| ==> kb[i].description.Some?
  }

  /** The matching profiles of `kb`, in knowledge-base order. */
  function Survivors(query: string, kb: seq<Profile>): seq<Profile>
    decreases |kb|
  {
    if kb == [] then []
    else (if Matches(query, kb[0]) then [kb[0]] else []) + Survivors(query, kb[1..])
  }

  /** Each profile paired with similarity 1.0. */
  function AsFits(ps: seq<Profile>): (r: seq<Fit>)
    ensures |r| == |ps|
    ensures forall k :: 0 <= k < |ps| ==> r[k] == Fit(ps[k], 1.0)
  {
    seq(|ps|, k requires 0 <= k < |ps| => Fit(ps[k], 1.0))
  }

  lemma {:induction false} SurvivorsAppend(query: string, a: seq<Profile>, p: Profile)
    ensures Survivors(query, a + [p]) == Survivors(query, a) + (if Matches(query, p) then [p] else [])
    decreases |a|
  {
    if a == [] {
      assert Survivors(query, [p][1..]) == [];
    } else {
      assert (a + [p])[1..] == a[1..] + [p];
      SurvivorsAppend(query, a[1..], p);
    }
  }

  /** Nothing survives exactly when no profile matches. */
  lemma {:induction false} NoSurvivorsIff(query: string, kb: seq<Profile>)
    ensures Survivors(query, kb) == [] <==> forall i :: 0 <= i < |kb| ==> !Matches(query, kb[i])
    decreases |kb|
  {
    if kb != [] {
      NoSurvivorsIff(query, kb[1..]);
      assert forall i :: 1 <= i < |kb| ==> kb[i] == kb[1..][i - 1];
    }
  }

  /** The first survivor is the first matching profile in knowledge-base order. */
  lemma {:induction false} FirstSurvivor(query: string, kb: seq<Profile>, i: nat)
    requires i < |kb| && Matches(query, kb[i])
    requires forall j :: 0 <= j < i ==> !Matches(query, kb[j])
    ensures Survivors(query, kb) != [] && Survivors(query, kb)[0] == kb[i]
    decreases i
  {
    if i > 0 {
      FirstSurvivor(query, kb[1..], i - 1);
    }
  }

  // ---------------------------------------------------------------- the scan against the reference

  /** The scan fails exactly when some profile has no description, always with `KeyError('description')`. */
  lemma {:induction false} RelevantFitsFailure(query: string, kb: seq<Profile>, threshold: real)
    ensures RelevantFits(query, kb, threshold).Failure? <==> !AllDescribed(kb)
    ensures RelevantFits(query, kb, threshold).Failure? ==>
      RelevantFits(query, kb, threshold).error == KeyErrorMessage("description")
    decreases |kb|
  {
    if kb != [] {
      var init := kb[..|kb| - 1];
      RelevantFitsFailure(query, init, threshold);
      assert forall i :: 0 <= i < |init| ==> init[i] == kb[i];
    }
  }

  /**
   * With every profile described and a threshold in [0, 1), the kept fits are
   * exactly the matching profiles, in order, each with similarity 1.0.
   */
  /** Pairing distributes over appending one profile. */
  lemma AsFitsSnoc(ps: seq<Profile>, p: Profile)
    ensures AsFits(ps + [p]) == AsFits(ps) + [Fit(p, 1.0)]
  {
    assert forall k :: 0 <= k < |ps| ==> (ps + [p])[k] == ps[k];
  }

  lemma {:induction false} RelevantFitsAreSurvivors(query: string, kb: seq<Profile>, threshold: real)
    requires AllDescribed(kb) && 0.0 <= threshold < 1.0
    ensures RelevantFits(query, kb, threshold) == Success(AsFits(Survivors(query, kb)))
    decreases |kb|
  {
    if kb == [] {
      assert AsFits([]) == [];
    } else {
      var init, last := kb[..|kb| - 1], kb[|kb| - 1];
      assert AllDescribed(init) by {
        assert forall i :: 0 <= i < |init| ==> init[i] == kb[i];
      }
      RelevantFitsAreSurvivors(query, init, threshold);
      assert kb == init + [last];
      SurvivorsAppend(query, init, last);
      assert last.description.Some?;
      var sv := Survivors(query, init);
      if Matches(query, last) {
        AsFitsSnoc(sv, last);
      } else {
        assert sv + [] == sv;
      }
    }
  }

  /** Every kept fit comes from a profile of `kb`, with that profile's similarity, above the threshold. */
  lemma {:induction false} RelevantFitsSound(query: string, kb: seq<Profile>, threshold: real)
    requires RelevantFits(query, kb, threshold).Success?
    ensures forall k :: 0 <= k < |RelevantFits(query, kb, threshold).value| ==>
      var fit := RelevantFits(query, kb, threshold).value[k];
      fit.similarity > threshold && fit.context in kb && fit.context.description.Some? &&
      fit.similarity == Similarity(query, fit.context.description.value)
    decreases |kb|
  {
    if kb != [] {
      var init := kb[..|kb| - 1];
      RelevantFitsSound(query, init, threshold);
      assert forall p :: p in init ==> p in kb;
    }
  }

  /** When all similarities are equal, `max` keeps the first entry. */
  lemma FirstMaxOfEqual(fits: seq<Fit>)
    requires |fits| > 0
    requires forall k :: 0 <= k < |fits| ==> fits[k].similarity == fits[0].similarity
    ensures FirstMaxIndex(fits) == 0
  {
  }

  // ---------------------------------------------------------------- get_recommendation

  /** The answer once the query is known not to be blank and the scan has succeeded. */
  lemma RecommendAfterScan(kb: seq<Profile>, threshold: real, query: string, fits: seq<Fit>)
    requires !AllWs(query)
    requires RelevantFits(query, kb, threshold) == Success(fits)
    ensures Recommend(kb, threshold, query) ==
      if fits == [] then DefaultOutcome else Assemble(fits[FirstMaxIndex(fits)], DetectedIssues(query))
  {
    StripEmptyIff(query);
  }

  /** The answer is `Empty query` exactly when the query is empty or only whitespace. */
  lemma EmptyQueryIff(kb: seq<Profile>, threshold: real, query: string)
    ensures Recommend(kb, threshold, query) == Error("Empty query") <==> AllWs(query)
  {
    StripEmptyIff(query);
    RelevantFitsFailure(query, kb, threshold);
    var scan := RelevantFits(query, kb, threshold);
    if !AllWs(query) && scan.Success? {
      RecommendAfterScan(kb, threshold, query, scan.value);
    }
    assert "Empty query"[0] != '\'';
  }

  /** A profile without a description makes any non-blank query fail with `KeyError('description')`. */
  lemma MissingDescriptionFails(kb: seq<Profile>, threshold: real, query: string)
    requires !AllWs(query) && !AllDescribed(kb)
    ensures Recommend(kb, threshold, query) == Error(KeyErrorMessage("description"))
  {
    StripEmptyIff(query);
    RelevantFitsFailure(query, kb, threshold);
  }

  /**
   * For a non-blank query and a fully described knowledge base, the answer is
   * the fixed default exactly when no profile matches; an empty knowledge base
   * always gives the default.
   */
  lemma DefaultIff(kb: seq<Profile>, threshold: real, query: string)
    requires !AllWs(query) && AllDescribed(kb) && 0.0 <= threshold < 1.0
    ensures Recommend(kb, threshold, query) == DefaultOutcome <==>
      forall i :: 0 <= i < |kb| ==> !Matches(query, kb[i])
  {
    RelevantFitsAreSurvivors(query, kb, threshold);
    RecommendAfterScan(kb, threshold, query, AsFits(Survivors(query, kb)));
    NoSurvivorsIff(query, kb);
  }

  /**
   * Otherwise the answer is built from the first matching profile, with
   * confidence 1.0 and the issues detected in the query.
   */
  lemma FirstMatchWins(kb: seq<Profile>, threshold: real, query: string, i: nat)
    requires !AllWs(query) && AllDescribed(kb) && 0.0 <= threshold < 1.0
    requires i < |kb| && Matches(query, kb[i])
    requires forall j :: 0 <= j < i ==> !Matches(query, kb[j])
    ensures Recommend(kb, threshold, query) == Assemble(Fit(kb[i], 1.0), DetectedIssues(query))
  {
    RelevantFitsAreSurvivors(query, kb, threshold);
    var fits := AsFits(Survivors(query, kb));
    RecommendAfterScan(kb, threshold, query, fits);
    FirstSurvivor(query, kb, i);
    FirstMaxOfEqual(fits);
  }

  /**
   * Every match is a complete answer taken from a matching profile of the
   * knowledge base, with confidence 1.0 and the issues detected in the query.
   */
  lemma MatchFromMatchingProfile(kb: seq<Profile>, threshold: real, query: string)
    requires 0.0 <= threshold
    requires Recommend(kb, threshold, query).Match?
    ensures var r := Recommend(kb, threshold, query);
      exists p :: p in kb && Matches(query, p) &&
        p.recommendation == Some(r.recommendation) && p.reasoning == Some(r.reasoning) &&
        p.fitTips == Some(r.fitTips) && r.confidence == 1.0 && r.identifiedIssues == DetectedIssues(query)
  {
    var r := Recommend(kb, threshold, query);
    var scan := RelevantFits(query, kb, threshold);
    StripEmptyIff(query);
    assert !AllWs(query) && scan.Success?;
    var fits := scan.value;
    RecommendAfterScan(kb, threshold, query, fits);
    assert fits != [];
    var best := fits[FirstMaxIndex(fits)];
    assert r == Assemble(best, DetectedIssues(query));
    RelevantFitsSound(query, kb, threshold);
    assert best.similarity > threshold && best.context in kb && best.context.description.Some?;
    assert best.similarity == Similarity(query, best.context.description.value);
    assert Matches(query, best.context);
  }

  /** A threshold of 1.0 or more keeps nothing, so every described knowledge base gives the default. */
  lemma {:induction false} HighThresholdKeepsNothing(query: string, kb: seq<Profile>, threshold: real)
    requires AllDescribed(kb) && threshold >= 1.0
    ensures RelevantFits(query, kb, threshold) == Success([])
    decreases |kb|
  {
    if kb != [] {
      var init := kb[..|kb| - 1];
      assert forall i :: 0 <= i < |init| ==> init[i] == kb[i];
      HighThresholdKeepsNothing(query, init, threshold);
    }
  }

  /** Calling twice with the same query gives the same answer: no hidden state. */
  method RepeatedCallsAgree(rag: BraFittingRag, query: string) returns (first: Outcome, second: Outcome)
    ensures first == second
  {
    first := rag.GetRecommendation(query);
    second := rag.GetRecommendation(query);
  }
}
