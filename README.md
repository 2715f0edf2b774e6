# Bra-fitting recommender: a Dafny model

This project models the recommendation engine of a bra-fitting assistant:
the class `BraFittingRAG` in `backend/app/recommender.py`. A user types a
free-text description of their fit; the engine compares the numbers in it with
the descriptions of the profiles in a knowledge base, and answers with a size,
a confidence, reasoning, fit tips and the fit problems named in the text.

The model follows the code as written:

- **Measurements** (`Scoring.Measurements`) are the integers of the tokens of
  `text.lower().split()` that are made only of digits. "32," and "34D" are not
  measurements; "032" is the measurement 32.
- **Similarity** (`Scoring.Similarity`) is 1.0 when the query and the
  description give the same non-empty list of measurements, and 0.0 otherwise.
  A profile without a `description` raises `KeyError`.
- **Issue detection** (`Issues.IdentifyFitIssues`) runs once over a fixed
  five-entry table of keywords and issue tags. It appends each tag whose
  keyword is a substring of the lower-cased query.
- **Recommendation** (`Recommender.BraFittingRag.GetRecommendation`):
  - A blank query gives the error `Empty query`.
  - Otherwise every profile is scored, and the fits strictly above the
    threshold 0.9 are kept.
  - With no fit kept, the answer is the fixed default: 34B, confidence 0.3, and
    no issue list.
  - With fits kept, the answer comes from the first fit of greatest
    similarity. Its confidence is that similarity, and the detected issues are
    attached.
  - Any `KeyError` raised on the way becomes `{"error": str(e)}`.

Modules: `Wrappers` (option and result types), `Text` (the Python string
operations used: `lower`, `strip`, `split`, `isdigit`, `int`, `in`),
`FitData` (profiles and outcomes), `Scoring` (`calculate_fit_similarity`),
`Issues` (`identify_fit_issues`), `Recommender` (the class and
`get_recommendation`).

The three helpers `calculate_fit_similarity`, `identify_fit_issues` and the
selection by `max` never read the object's fields. They are therefore modelled
outside the class: a function, a method with its loop, and a function.
`get_recommendation` is a method of the class `BraFittingRag`. It has no
`modifies` clause, so it cannot change the knowledge base or the threshold.

The data and constants of the engine are modelled as follows:

- `FitData.Profile` is a knowledge-base record (backend/app/recommender.py:13, 21, 82-85). Each of the four keys the engine reads may be absent.
- `FitData.Outcome` is the returned dictionary: a match (lines 81-87), the default (lines 71-76) or `{"error": ...}` (line 91).
- `Issues.CommonProblems` is the keyword table (lines 36-42), in insertion order.
- `Recommender.Fit` is one `{'context': …, 'similarity': …}` entry of `relevant_fits` (lines 64-67).
- `Recommender.SimilarityThreshold` is the threshold 0.9 (line 8).
- `Recommender.DefaultOutcome` is the fixed answer for no match (lines 71-76).

## Model

| member | source | states |
|---|---|---|
| `Text.Lower` | backend/app/recommender.py:20-21 | `str.lower()` on ASCII: same length, each upper-case letter replaced by its lower-case form, every other character kept |
| `Text.Strip` | backend/app/recommender.py:53 | `str.strip()`: the text without its leading and trailing whitespace |
| `Text.SplitWs` | backend/app/recommender.py:24-25 | `str.split()` without arguments: the maximal runs of non-whitespace characters, in order, each non-empty and free of whitespace |
| `Text.IsDigitToken` | backend/app/recommender.py:24-25 | `str.isdigit()` on ASCII: non-empty and made only of '0'-'9' |
| `Text.DigitValue` | backend/app/recommender.py:24-25 | `int(s)` for a digit string: its decimal value, read left to right |
| `Text.StripEmptyIff` | backend/app/recommender.py:53 | `query.strip()` is empty exactly when the query is empty or made only of whitespace |
| `Text.SplitJoin` | backend/app/recommender.py:24-25 | `split()` undoes joining non-empty, whitespace-free tokens with single spaces |
| `Text.SplitConcat` | backend/app/recommender.py:24-25 | the tokens of `a + s`, where `s` starts with whitespace, are the tokens of `a` followed by those of `s` |
| `Text.SplitOneWord` | backend/app/recommender.py:24-25 | a single whitespace-free word splits into itself |
| `Text.DecimalRoundTrip` | backend/app/recommender.py:24-25 | `int` is the inverse of writing a number in decimal, and the numeral passes `isdigit()` |
| `Text.LeadingZero` | backend/app/recommender.py:24-25 | a leading zero does not change the value `int` gives a digit string |
| `Text.Contains` | backend/app/recommender.py:45 | `keyword in text` holds exactly when the keyword occurs at some position of the text |
| `Scoring.DigitInts` | backend/app/recommender.py:24-25 | the comprehension `[int(s) for s in tokens if s.isdigit()]`, keeping token order |
| `Scoring.Measurements` | backend/app/recommender.py:20-25 | the measurement list of a text: the digit tokens of `text.lower().split()`, as integers |
| `Scoring.MeasurementsAfterWs` | backend/app/recommender.py:24-25 | leading whitespace does not change the measurements |
| `Scoring.Similarity` | backend/app/recommender.py:24-31 | the similarity is 0.0 or 1.0, and it is 1.0 exactly when both measurement lists are equal and non-empty |
| `Scoring.FitSimilarity` | backend/app/recommender.py:18-31 | scoring fails with `KeyError('description')` exactly when the profile has no description, and otherwise lies in [0, 1] |
| `Scoring.SimilaritySymmetric` | backend/app/recommender.py:28-31 | swapping the query and the description leaves the similarity unchanged |
| `Scoring.NoDigitsNoMatch` | backend/app/recommender.py:28-29 | a text without an all-digit token has similarity 0.0 with everything |
| `Scoring.MeasurementsIgnoreCase` | backend/app/recommender.py:20-25 | lower-casing does not change the measurements: they are the digit tokens of the text as typed |
| `Scoring.SplitLower` | backend/app/recommender.py:20-25 | `s.lower().split()` is `s.split()` with each token lower-cased |
| `Scoring.DigitIntsAppend` | backend/app/recommender.py:24-25 | the digit-token filter distributes over concatenated token lists |
| `Scoring.MeasurementsConcat` | backend/app/recommender.py:24-25 | the measurements of two texts joined by a space are the measurements of each, in order |
| `Scoring.MeasurementsOfWord` | backend/app/recommender.py:24-25 | a single word contributes its integer value when it is all digits, and nothing otherwise |
| `Scoring.MeasurementsOfJoin` | backend/app/recommender.py:24-25 | the measurements of space-joined words are the values of the all-digit words, in order |
| `Scoring.MeasurementsOfNumbers` | backend/app/recommender.py:24-25 | a text of space-separated numerals has exactly those numbers as measurements |
| `Scoring.NumbersSimilarIff` | backend/app/recommender.py:24-31 | two such texts have similarity 1.0 exactly when the number lists are equal and non-empty |
| `Scoring.LeadingZerosCompareEqual` | backend/app/recommender.py:24-31 | "0" followed by a numeral matches the numeral alone, because tokens compare as integers |
| `Scoring.OrderMatters` | backend/app/recommender.py:31 | the same two different numbers in swapped order do not match |
| `Scoring.MultiplicityMatters` | backend/app/recommender.py:31 | a number given twice does not match the number given once |
| `Scoring.GluedNumberIgnored` | backend/app/recommender.py:24-25 | digits followed by punctuation or a letter ("32,", "34D") give no measurement |
| `Scoring.NonDigitWordIgnored` | backend/app/recommender.py:24-25 | removing a word that is not all digits does not change the measurements |
| `Issues.DetectedIssues` | backend/app/recommender.py:36-48 | the tags of the table entries whose keyword occurs in `query.lower()`, in table order |
| `Issues.IdentifyFitIssues` | backend/app/recommender.py:33-48 | the loop over the table returns exactly the tags of the detected keywords, in table order |
| `Issues.DetectedIff` | backend/app/recommender.py:36-46 | a tag is reported exactly when one of its keywords is a substring of the lower-cased query |
| `Issues.NothingDetectedIff` | backend/app/recommender.py:35-48 | the list is empty exactly when no keyword occurs in the query |
| `Issues.DetectedInTableOrder` | backend/app/recommender.py:36-46 | reported tags follow the table order strictly, so none is repeated |
| `Issues.DetectionIgnoresCase` | backend/app/recommender.py:45 | lower-casing the query beforehand changes nothing |
| `Issues.TagIndex` | backend/app/recommender.py:36-42 | finds the first table position holding a tag, or the table length when the tag is absent |
| `Recommender.RelevantFits` | backend/app/recommender.py:60-67 | `relevant_fits` after the loop: the fits strictly above the threshold in knowledge-base order, or the message of the first `KeyError` raised while scoring |
| `Recommender.Recommend` | backend/app/recommender.py:50-91 | the answer of `get_recommendation`: `Empty query` for a blank query, then the scan's error, the default when nothing is kept, or the answer assembled from the first greatest fit with the detected issues |
| `Recommender.FirstMaxIndex` | backend/app/recommender.py:79 | `max` by similarity picks an entry of greatest similarity, and every earlier entry is strictly smaller, so it is the first such entry |
| `Recommender.FirstMaxOfEqual` | backend/app/recommender.py:79 | among equal similarities `max` keeps the first entry |
| `Recommender.Assemble` | backend/app/recommender.py:81-87 | the answer is a complete match exactly when recommendation, reasoning and fit_tips are all present; otherwise it is the `KeyError` of the first missing key in the order recommendation, reasoning, fit_tips |
| `Recommender.BraFittingRag.constructor` | backend/app/recommender.py:5-8 | the engine holds the given knowledge base and the threshold 0.9 |
| `Recommender.BraFittingRag.GetRecommendation` | backend/app/recommender.py:50-91 | the loop-based method returns the specified outcome for its fields and changes no state |
| `Recommender.RelevantFitsStep` | backend/app/recommender.py:61-67 | one loop iteration either raises the profile's `KeyError` or appends the fit only when it is above the threshold |
| `Recommender.FailureIsFinal` | backend/app/recommender.py:61-62 | an exception raised while scoring a profile ends the whole scan with that message |
| `Recommender.RelevantFitsFailure` | backend/app/recommender.py:61-62 | the scan fails exactly when some profile lacks a description, always with `KeyError('description')` |
| `Recommender.RelevantFitsAreSurvivors` | backend/app/recommender.py:60-67 | with all profiles described and a threshold in [0, 1), the kept fits are exactly the matching profiles in order, each with similarity 1.0 |
| `Recommender.RelevantFitsSound` | backend/app/recommender.py:60-67 | every kept fit is a profile of the knowledge base, scored above the threshold |
| `Recommender.SurvivorsAppend` | backend/app/recommender.py:61-67 | filtering matching profiles distributes over appending one profile |
| `Recommender.NoSurvivorsIff` | backend/app/recommender.py:61-70 | no fit survives exactly when no profile matches |
| `Recommender.FirstSurvivor` | backend/app/recommender.py:61-79 | the first surviving profile is the first matching profile in knowledge-base order |
| `Recommender.EmptyQueryIff` | backend/app/recommender.py:52-54 | the answer is the error `Empty query` exactly when the query is blank, whatever the knowledge base |
| `Recommender.MissingDescriptionFails` | backend/app/recommender.py:61-91 | a profile without a description turns every non-blank query into the error `'description'` |
| `Recommender.DefaultIff` | backend/app/recommender.py:69-76 | for a non-blank query and described profiles, the answer is the fixed 34B default exactly when no profile matches, including an empty knowledge base |
| `Recommender.FirstMatchWins` | backend/app/recommender.py:78-87 | otherwise the answer is built from the first matching profile, with confidence 1.0 and the detected issues |
| `Recommender.MatchFromMatchingProfile` | backend/app/recommender.py:78-87 | every match copies its fields from a matching profile of the knowledge base, has confidence 1.0, and carries the detected issues |
| `Recommender.HighThresholdKeepsNothing` | backend/app/recommender.py:63 | a threshold of 1.0 or more keeps no fit |
| `Recommender.RepeatedCallsAgree` | backend/app/recommender.py:50-91 | two calls with the same query return the same answer |
| `FitData.KeyErrorMessage` | backend/app/recommender.py:89-91 | the text of a `KeyError` is the key between single quotes |

## Left out

- `load_knowledge_base` (backend/app/recommender.py:10-16) reads a JSON file. The knowledge base is a constructor argument instead; the missing-file fallback is the constructor given an empty sequence.
- JSON values other than strings in a profile are not modelled. For example, a numeric `description` would raise `AttributeError` on `.lower()`. Keys the engine never reads (such as `common_issues`) are not modelled either.
- DigitValue: the model gives the value of a digit token of any length. Since the security releases 3.7.14, 3.8.14, 3.9.14 and 3.10.7, and in every release from 3.11 on, Python's `int(s)` raises `ValueError` for a digit token longer than 4300 characters; the model scores such a token instead of failing.
- Exceptions other than the `ValueError` for a blank query and the `KeyError`s of missing keys cannot arise in the model. The error message is modelled exactly for those two.
- Unicode: `lower()` is modelled on ASCII letters only, whitespace on the Latin-1 range, and `isdigit()` on '0'-'9'. Python's wider rules, such as superscript digits on which `int` raises, are not captured.
- Floating point: similarities are only 0.0 and 1.0 and the other constants are literals, so `real` values stand in for Python floats.
- `backend/app/main.py` (HTTP routing, CORS, the health endpoint, the mapping of errors to status codes) and the React front end are transport and display code, not part of the engine.
