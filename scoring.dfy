/**
 * `calculate_fit_similarity`: the query and a profile description are reduced
 * to the integers of their all-digit whitespace tokens, and the two lists are
 * compared for equality.
 */
module Scoring {
  import opened Wrappers
  import opened Text
  import opened FitData

  /** `[int(s) for s in tokens if s.isdigit()]`. */
  function DigitInts(tokens: seq<string>): seq<nat>
    decreases |tokens|
  {
    if tokens == [] then []
    else (if IsDigitToken(tokens[0]) then [DigitValue(tokens[0])] else []) + DigitInts(tokens[1..])
  }

  /** The measurement list of a text: the digit tokens of `text.lower().split()`, as integers. */
  function Measurements(text: string): seq<nat> {
    DigitInts(SplitWs(Lower(text)))
  }

  /**
   * The similarity of a query and a description: 1.0 when both yield the same
   * non-empty measurement list, 0.0 otherwise.
   */
  function Similarity(query: string, description: string): (r: real)
    ensures r == 0.0 || r == 1.0
    ensures r == 1.0 <==> Measurements(query) != [] && Measurements(query) == Measurements(description)
  {
    var queryMeasurements := Measurements(query);
    var contextMeasurements := Measurements(description);
    if queryMeasurements == [] || contextMeasurements == [] then 0.0
    else if queryMeasurements == contextMeasurements then 1.0
    else 0.0
  }

  /**
   * `calculate_fit_similarity(query, context)`: reading `context['description']`
   * raises `KeyError` when the profile has no description.
   */
  function FitSimilarity(query: string, context: Profile): (r: Result<real>)
    ensures r.Failure? <==> context.description.None?
    ensures r.Failure? ==> r.error == KeyErrorMessage("description")
    ensures r.Success? ==> 0.0 <= r.value <= 1.0
  {
    match context.description
    case None => Failure(KeyErrorMessage("description"))
    case Some(description) => Success(Similarity(query, description))
  }

  /** Swapping query and description does not change the similarity. */
  lemma SimilaritySymmetric(a: string, b: string)
    ensures Similarity(a, b) == Similarity(b, a)
  {
  }

  /** A text without any all-digit token matches nothing, not even itself. */
  lemma NoDigitsNoMatch(a: string, b: string)
    requires Measurements(a) == [] || Measurements(b) == []
    ensures Similarity(a, b) == 0.0
  {
  }

  // ---------------------------------------------------------------- DigitInts

  lemma {:induction false} DigitIntsAppend(xs: seq<string>, ys: seq<string>)
    ensures DigitInts(xs + ys) == DigitInts(xs) + DigitInts(ys)
    decreases |xs|
  {
    if xs == [] {
      assert xs + ys == ys;
    } else {
      var head := if IsDigitToken(xs[0]) then [DigitValue(xs[0])] else [];
      var zs := xs + ys;
      assert zs[0] == xs[0] && zs[1..] == xs[1..] + ys;
      assert DigitInts(zs) == head + DigitInts(xs[1..] + ys);
      DigitIntsAppend(xs[1..], ys);
      assert DigitInts(xs) == head + DigitInts(xs[1..]);
      assert head + (DigitInts(xs[1..]) + DigitInts(ys)) == (head + DigitInts(xs[1..])) + DigitInts(ys);
    }
  }

  function Lowered(tokens: seq<string>): (r: seq<string>)
    ensures |r| == |tokens|
    ensures forall k :: 0 <= k < |tokens| ==> r[k] == Lower(tokens[k])
  {
    seq(|tokens|, k requires 0 <= k < |tokens| => Lower(tokens[k]))
  }

  /** Lower-casing the tokens never changes which are all-digit, nor their values. */
  lemma {:induction false} DigitIntsLowered(tokens: seq<string>)
    ensures DigitInts(Lowered(tokens)) == DigitInts(tokens)
    decreases |tokens|
  {
    if tokens != [] {
      var t := tokens[0];
      assert IsDigitToken(t) ==> Lower(t) == t;
      assert IsDigitToken(Lower(t)) ==> IsDigitToken(t) by {
        if IsDigitToken(Lower(t)) {
          forall i | 0 <= i < |t| ensures IsDigit(t[i]) {
            assert IsDigit(Lower(t)[i]);
          }
        }
      }
      assert Lowered(tokens)[1..] == Lowered(tokens[1..]);
      DigitIntsLowered(tokens[1..]);
    }
  }

  // ---------------------------------------------------------------- lower() and split()

  lemma LowerKeepsWs(c: char)
    ensures IsWs(LowerChar(c)) <==> IsWs(c)
  {
  }

  lemma {:induction false} WordLenLower(s: string)
    ensures WordLen(Lower(s)) == WordLen(s)
    decreases |s|
  {
    if s != [] {
      LowerKeepsWs(s[0]);
      assert Lower(s)[1..] == Lower(s[1..]);
      WordLenLower(s[1..]);
    }
  }

  /** `s.lower().split()` is `s.split()` with every token lower-cased. */
  lemma {:induction false} SplitLower(s: string)
    ensures SplitWs(Lower(s)) == Lowered(SplitWs(s))
    decreases |s|
  {
    var l := Lower(s);
    if s == [] {
    } else if IsWs(s[0]) {
      LowerKeepsWs(s[0]);
      assert l[1..] == Lower(s[1..]);
      SplitLower(s[1..]);
    } else {
      LowerKeepsWs(s[0]);
      var n := WordLen(s);
      WordLenLower(s);
      assert l[..n] == Lower(s[..n]);
      assert l[n..] == Lower(s[n..]);
      SplitLower(s[n..]);
      SplitLowerStep(s, n);
    }
  }

  lemma SplitLowerStep(s: string, n: nat)
    requires s != [] && !IsWs(s[0]) && n == WordLen(s)
    requires WordLen(Lower(s)) == n
    requires SplitWs(Lower(s)[n..]) == Lowered(SplitWs(s[n..]))
    requires Lower(s)[..n] == Lower(s[..n])
    ensures SplitWs(Lower(s)) == Lowered(SplitWs(s))
  {
    LowerKeepsWs(s[0]);
    SplitWordCase(s);
    SplitWordCase(Lower(s));
    LoweredCons(s[..n], SplitWs(s[n..]));
  }

  lemma LoweredCons(t: string, rest: seq<string>)
    ensures Lowered([t] + rest) == [Lower(t)] + Lowered(rest)
  {
  }

  /**
   * `lower()` does not affect the measurements: they are the digit tokens of
   * the text exactly as typed.
   */
  lemma MeasurementsIgnoreCase(s: string)
    ensures Measurements(s) == DigitInts(SplitWs(s))
  {
    SplitLower(s);
    DigitIntsLowered(SplitWs(s));
  }

  // ---------------------------------------------------------------- measurements of composed texts

  lemma LowerConcat(a: string, b: string)
    ensures Lower(a + b) == Lower(a) + Lower(b)
  {
  }

  /** The measurements of two texts joined by a space are those of each, in order. */
  lemma MeasurementsConcat(a: string, b: string)
    ensures Measurements(a + " " + b) == Measurements(a) + Measurements(b)
  {
    LowerConcat(a, " " + b);
    LowerConcat(" ", b);
    assert a + " " + b == a + (" " + b);
    assert Lower(" ") == " ";
    SplitConcat(Lower(a), " " + Lower(b));
    SplitSpaceThen(Lower(b));
    DigitIntsAppend(SplitWs(Lower(a)), SplitWs(Lower(b)));
  }

  /** A single word contributes its value if it is all digits, and nothing otherwise. */
  lemma MeasurementsOfWord(w: string)
    requires IsWord(w)
    ensures Measurements(w) == if IsDigitToken(w) then [DigitValue(w)] else []
  {
    MeasurementsIgnoreCase(w);
    SplitOneWord(w);
    assert [w][1..] == [];
  }

  function Numerals(ns: seq<nat>): (r: seq<string>)
    ensures |r| == |ns|
    ensures forall k :: 0 <= k < |ns| ==> r[k] == Decimal(ns[k])
  {
    seq(|ns|, k requires 0 <= k < |ns| => Decimal(ns[k]))
  }

  lemma {:induction false} DigitIntsNumerals(ns: seq<nat>)
    ensures DigitInts(Numerals(ns)) == ns
    decreases |ns|
  {
    if ns != [] {
      DecimalRoundTrip(ns[0]);
      assert Numerals(ns)[1..] == Numerals(ns[1..]);
      DigitIntsNumerals(ns[1..]);
    }
  }

  /** Leading whitespace does not change the measurements. */
  lemma MeasurementsAfterWs(a: string, s: string)
    requires AllWs(a)
    ensures Measurements(a + s) == Measurements(s)
  {
    MeasurementsIgnoreCase(a + s);
    MeasurementsIgnoreCase(s);
    SplitAfterWs(a, s);
  }

  /** The measurements of words joined by spaces are the values of the all-digit words among them. */
  lemma MeasurementsOfJoin(ws: seq<string>)
    requires forall k :: 0 <= k < |ws| ==> IsWord(ws[k])
    ensures Measurements(JoinWs(ws)) == DigitInts(ws)
  {
    MeasurementsIgnoreCase(JoinWs(ws));
    SplitJoin(ws);
  }

  /**
   * A text written as the numbers `ns` separated by single spaces has exactly
   * `ns` as its measurement list.
   */
  lemma MeasurementsOfNumbers(ns: seq<nat>)
    ensures Measurements(JoinWs(Numerals(ns))) == ns
  {
    var ts := Numerals(ns);
    forall k | 0 <= k < |ts| ensures IsWord(ts[k]) {
      DecimalRoundTrip(ns[k]);
    }
    MeasurementsOfJoin(ts);
    DigitIntsNumerals(ns);
  }

  /** Two such texts are similar exactly when the number lists are equal and non-empty. */
  lemma NumbersSimilarIff(ns: seq<nat>, ms: seq<nat>)
    ensures Similarity(JoinWs(Numerals(ns)), JoinWs(Numerals(ms))) == 1.0 <==> ns != [] && ns == ms
  {
    MeasurementsOfNumbers(ns);
    MeasurementsOfNumbers(ms);
  }

  // ---------------------------------------------------------------- consequences

  /** "032" and "32" are the same measurement: tokens are compared as integers. */
  lemma LeadingZerosCompareEqual(n: nat)
    ensures Similarity("0" + Decimal(n), Decimal(n)) == 1.0
  {
    var t := Decimal(n);
    DecimalRoundTrip(n);
    LeadingZero(t);
    ZeroThenDigits(t);
    MeasurementsOfWord("0" + t);
    MeasurementsOfWord(t);
    assert Measurements("0" + t) == [DigitValue(t)] == Measurements(t);
  }

  /** A digit token with a "0" in front is still a digit token, and both are words. */
  lemma ZeroThenDigits(t: string)
    requires IsDigitToken(t)
    ensures IsDigitToken("0" + t) && IsWord("0" + t) && IsWord(t)
  {
    assert forall i :: 1 <= i < |"0" + t| ==> ("0" + t)[i] == t[i - 1];
  }

  /** The same two numbers in the other order do not match. */
  lemma OrderMatters(a: nat, b: nat)
    requires a != b
    ensures Similarity(JoinWs(Numerals([a, b])), JoinWs(Numerals([b, a]))) == 0.0
  {
    NumbersSimilarIff([a, b], [b, a]);
  }

  /** A number given twice is a different list from the number given once. */
  lemma MultiplicityMatters(a: nat)
    ensures Similarity(JoinWs(Numerals([a, a])), JoinWs(Numerals([a]))) == 0.0
  {
    NumbersSimilarIff([a, a], [a]);
  }

  /** Digits glued to punctuation or to a cup letter ("32,", "34D") are not a measurement. */
  lemma GluedNumberIgnored(t: string, c: char)
    requires IsDigitToken(t) && !IsDigit(c) && !IsWs(c)
    ensures Measurements(t + [c]) == []
  {
    var w := t + [c];
    assert !IsDigit(w[|w| - 1]);
    MeasurementsOfWord(w);
  }

  /** A word that is not all digits can be dropped from a text without changing its measurements. */
  lemma NonDigitWordIgnored(a: string, w: string, b: string)
    requires IsWord(w) && !IsDigitToken(w)
    ensures Measurements(a + " " + w + " " + b) == Measurements(a + " " + b)
  {
    MeasurementsConcat(a + " " + w, b);
    MeasurementsConcat(a, w);
    MeasurementsOfWord(w);
    MeasurementsConcat(a, b);
  }
}
