# Résumé scoring engine — a Dafny model

This project models the scoring engine of the Resumate back end
(`resumate-backend/atsapi/resumate_scorer.py`). The engine grades a résumé's
plain text. An optional job description adds a sixth criterion. The engine
returns a score from 0 to 100, a quality label, a breakdown by criterion,
supporting details and an ordered list of suggestions.

The model has one module per component:

- `Text` (`text.dfy`) covers the primitives the scorer relies on:
  - ASCII `str.lower()`;
  - Python's substring test `sub in s`;
  - `str.split()` and `' '.join(...)`;
  - the normaliser `clean_text`, which strips, lowercases, tokenises and drops stop words. It always keeps "more", "most", "less", "not" and "very".
- `Sections`: the section detector. Each of four core headings is worth 25 points; each of four bonus headings is worth 1.25.
- `Contact`: the e-mail and LinkedIn tests, scored 100, 50 or 0.
- `Metrics`: the quantified-achievement detector, scored `min(10 * matches, 100)`.
- `Grammar`: the arithmetic that turns an issue count into a score in [70, 100].
- `Length`: the three-tier word-count score.
- `Similarity`: `jd_match_score`, including the vectoriser's empty-vocabulary exception.
- `Scorer` covers `compute_resume_score`:
  - the weight table, the weights actually used, renormalisation and the clamp to 100;
  - the label;
  - the suggestion list, built by appending one entry per rule that fires.
- `Common`: `Option`, `Result`, `Min`, `Max`.

The sub-scorers are pure functions. `compute_resume_score` is a method: it
assembles the result and appends suggestions step by step. Its postconditions
tie every field to the specification functions. Lemmas prove the rest:
- the bounds of each score;
- the weighted-mean property of the renormalised total;
- the label tiers and their monotonicity;
- the shape and order of the suggestion list;
- the idempotence of `clean_text`.

Some results come from code outside the model. The method takes them as an
`Observations` record:
- whether the e-mail regular expression and the LinkedIn-URL regular expression matched;
- the match count of each of the five metric patterns;
- the number of issues the grammar checker reported;
- the TF-IDF cosine similarity, required to lie in [0, 1].

The stop-word corpus is a parameter.

Notes on the source:
- `check_grammar` guards the division by the word count (`resumate_scorer.py:50`): the error rate is 0 when the text has no words.
- The total is only clamped from above, by `min(total, 100)` (`resumate_scorer.py:109`). It is non-negative because every sub-score is; the model proves this rather than clamping from below.
- An empty TF-IDF vocabulary makes the vectoriser raise (`resumate_scorer.py:66-67`): no term of two or more characters in either normalised text. The code does not turn this into a similarity of 0. The model returns `Failure(EmptyVocabulary)`.

## Model

| member | source | states |
|---|---|---|
| Text.Lower | resumate-backend/atsapi/resumate_scorer.py:14 | `text.lower()`, also applied at line 23: lowercasing keeps the length, leaves no ASCII capital, maps each capital to its lowercase letter (code point + 32) and leaves every other character as it is. |
| Text.LowerIdempotent | resumate-backend/atsapi/resumate_scorer.py:14 | Lowercasing twice equals lowercasing once. |
| Text.ContainsIff | resumate-backend/atsapi/resumate_scorer.py:24 | The substring search succeeds exactly when some window of the text equals the heading, so `s in text` is modelled as written. |
| Text.ContainsPrefix | resumate-backend/atsapi/resumate_scorer.py:31 | A text that contains a string contains every prefix of that string. |
| Text.SplitWords | resumate-backend/atsapi/resumate_scorer.py:49 | `text.split()` yields non-empty tokens free of whitespace, made of characters of the text. |
| Text.SplitWordsCover | resumate-backend/atsapi/resumate_scorer.py:49 | The tokens of `text.split()`, written one after the other, are exactly the text's non-whitespace characters in order, whatever whitespace separates them. |
| Text.SplitWordsCount | resumate-backend/atsapi/resumate_scorer.py:55 | `len(text.split())`, the word count of lines 49 and 55, is the number of indices whose character is not whitespace and follows whitespace or the start of the text. |
| Text.JoinWords | resumate-backend/atsapi/resumate_scorer.py:18 | `' '.join(ws)` is empty for no words and starts with the first word. Every character of it is a space or a character of one of the words. |
| Text.SplitBlank | resumate-backend/atsapi/resumate_scorer.py:55 | A text made only of whitespace has zero words. |
| Text.SplitJoin | resumate-backend/atsapi/resumate_scorer.py:15-18 | Splitting `' '.join(words)` gives back exactly `words` when each is a non-empty, space-free token. |
| Text.JoinClean | resumate-backend/atsapi/resumate_scorer.py:18 | Joining words made of lowercase letters and digits gives a text made of lowercase letters, digits and spaces. |
| Text.StripDisallowed | resumate-backend/atsapi/resumate_scorer.py:13 | The substitution keeps a character exactly when it is an ASCII letter, digit or space, and never lengthens the text. |
| Text.StripAppend | resumate-backend/atsapi/resumate_scorer.py:13 | The substitution distributes over concatenation and keeps a single character exactly when it is allowed, so it keeps order and multiplicity. |
| Text.StripKeepsKept | resumate-backend/atsapi/resumate_scorer.py:13 | The substitution leaves a text of allowed characters unchanged. |
| Text.RemoveStopWords | resumate-backend/atsapi/resumate_scorer.py:18 | The filter keeps a token exactly when it is not a stop word. |
| Text.RemoveStopWordsAppend | resumate-backend/atsapi/resumate_scorer.py:18 | The filter distributes over concatenation and keeps a single token exactly when it is not a stop word, so it keeps order and repeats. |
| Text.RemoveStopWordsIdempotent | resumate-backend/atsapi/resumate_scorer.py:18 | Filtering twice equals filtering once. |
| Text.CleanText | resumate-backend/atsapi/resumate_scorer.py:12-18 | The normalised text contains only lowercase letters, digits and spaces. |
| Text.CleanTokens | resumate-backend/atsapi/resumate_scorer.py:13-15 | Every token after stripping and lowercasing is made of lowercase letters and digits. |
| Text.CleanTextWords | resumate-backend/atsapi/resumate_scorer.py:15-18 | The normalised text's words are the raw tokens minus (stop words less the kept words). No stop word survives unless it is kept. "more", "most", "less", "not" and "very" are never removed. |
| Text.CleanTextIdempotent | resumate-backend/atsapi/resumate_scorer.py:12-18 | Normalising an already normalised text changes nothing. |
| Sections.FindSections | resumate-backend/atsapi/resumate_scorer.py:24 | `section_found` has exactly the eight fixed keys. Each flag is true iff the lowercased text contains that heading. |
| Sections.CountFound | resumate-backend/atsapi/resumate_scorer.py:25-26 | The count of flagged headings is at most the number of headings. It reaches that number iff all are flagged and is 0 iff none is. |
| Sections.SectionScore | resumate-backend/atsapi/resumate_scorer.py:25-27 | The score is 25 per core heading plus 1.25 per bonus heading, so it lies in [0, 105]. |
| Sections.CheckResumeSections | resumate-backend/atsapi/resumate_scorer.py:20-27 | The detector returns the eight-key map of case-insensitive substring tests and the score 25·core + 1.25·bonus in [0, 105]. |
| Sections.AllCoreNoBonus | resumate-backend/atsapi/resumate_scorer.py:20-27 | All four core headings and no bonus heading give exactly 100. |
| Sections.ScoreBelow90Iff | resumate-backend/atsapi/resumate_scorer.py:124 | The section score is below 90 exactly when some core heading is missing. |
| Sections.CaseInsensitive | resumate-backend/atsapi/resumate_scorer.py:23-24 | Lowercasing the résumé first does not change the result. |
| Contact.ContactScore | resumate-backend/atsapi/resumate_scorer.py:32 | 100 iff both signals hold, 50 iff exactly one holds, 0 iff neither holds. |
| Contact.CheckContactInfo | resumate-backend/atsapi/resumate_scorer.py:29-36 | `email_present` is the e-mail match. `linkedin_present` holds iff the profile URL matched or the lowercased text contains "linkedin". The score follows the 100/50/0 rule on these two flags. |
| Contact.ProfileUrlSubsumed | resumate-backend/atsapi/resumate_scorer.py:31 | Any profile URL the pattern finds holds "linkedin", so the bare-name test alone decides `linkedin_present`. |
| Contact.NoContactScoresZero | resumate-backend/atsapi/resumate_scorer.py:29-32 | No e-mail match and no mention of LinkedIn give 0. |
| Metrics.Sum | resumate-backend/atsapi/resumate_scorer.py:43 | The total match count is 0 exactly when every pattern's count is 0. |
| Metrics.SumAtLeastEach | resumate-backend/atsapi/resumate_scorer.py:43 | Each pattern's match count is at most the total. |
| Metrics.MetricScore | resumate-backend/atsapi/resumate_scorer.py:44 | The score is at most 100. It equals 100 iff there are at least 10 matches, and otherwise is 10 per match. |
| Metrics.CheckMetrics | resumate-backend/atsapi/resumate_scorer.py:38-44 | The count is the sum of the per-pattern counts and bounds each of them. The score is `MetricScore` of that sum: in [0, 100], saturating exactly at 10 matches, and 0 exactly when no pattern matched. |
| Metrics.MetricMonotone | resumate-backend/atsapi/resumate_scorer.py:44 | More matches never lower the score. |
| Metrics.MetricBelow40Iff | resumate-backend/atsapi/resumate_scorer.py:128 | The metric suggestion fires exactly when fewer than four matches were found. |
| Grammar.ErrorRate | resumate-backend/atsapi/resumate_scorer.py:50 | The error rate is non-negative. It is 0 exactly when there are no words or no issues. |
| Grammar.GrammarScore | resumate-backend/atsapi/resumate_scorer.py:51 | The score is in [70, 100]. It is exactly 100 with no words or no issues. |
| Grammar.CheckGrammar | resumate-backend/atsapi/resumate_scorer.py:46-52 | The checker returns the issue count unchanged. The score is `GrammarScore` of the issue count and the `text.split()` word count. It lies in [70, 100] and is 100 for a text without words or without issues. |
| Grammar.GrammarAntitone | resumate-backend/atsapi/resumate_scorer.py:50-51 | For a fixed word count, more issues never raise the score. |
| Grammar.GrammarMonotoneInWords | resumate-backend/atsapi/resumate_scorer.py:50-51 | For a fixed issue count and a positive word count, more words never lower the score. (From 0 words to 1 the zero-word guard gives 100, which can drop to 70.) |
| Grammar.QuotientAntitone | resumate-backend/atsapi/resumate_scorer.py:50 | Dividing the issue count by a larger word count gives a rate no higher. |
| Grammar.GrammarBelow80Iff | resumate-backend/atsapi/resumate_scorer.py:130 | The grammar suggestion fires exactly when there are words and more than one issue per 15 words. |
| Length.LengthScore | resumate-backend/atsapi/resumate_scorer.py:56-61 | 100 iff 300–950 words; 80 iff 250–299 or 951–1100; 60 iff fewer than 250 or more than 1100. |
| Length.CheckLength | resumate-backend/atsapi/resumate_scorer.py:54-61 | The second result is the `text.split()` word count and the score is `LengthScore` of it. The score is 100 exactly in [300, 950] and is one of 60, 80, 100. |
| Length.LengthBoundaries | resumate-backend/atsapi/resumate_scorer.py:56-61 | Boundary values: 0→60, 249→60, 250→80, 299→80, 300→100, 950→100, 951→80, 1100→80, 1101→60. |
| Similarity.JdMatchScore | resumate-backend/atsapi/resumate_scorer.py:63-69 | Similarity fails with an empty vocabulary exactly when neither normalised text has a term of at least two characters. Otherwise it is the cosine scaled to [0, 100]. |
| Similarity.BlankJobDescription | resumate-backend/atsapi/resumate_scorer.py:64-67 | A job description with no letters or digits contributes no term to the vocabulary. |
| Scorer.EmptyJobDescriptionIgnored | resumate-backend/atsapi/resumate_scorer.py:78 | `if job_desc` makes an empty job description score exactly like a missing one: both runs succeed, have no `jd` score, and return the same result. |
| Scorer.WeightTable | resumate-backend/atsapi/resumate_scorer.py:81-88 | The table has six entries with distinct keys and non-negative weights. The five criteria always weigh more than 0. The last entry is `jd`, and it weighs more than 0 exactly when a similarity score exists. |
| Scorer.UsedWeights | resumate-backend/atsapi/resumate_scorer.py:101-104 | The used weights are the table's entries, minus the `jd` entry when there is no similarity score. |
| Scorer.UsedWeightTotal | resumate-backend/atsapi/resumate_scorer.py:81-105 | The used weights sum to 1.00 with a job description and 0.80 without one. |
| Scorer.WeightsOfTable | resumate-backend/atsapi/resumate_scorer.py:81-88 | The weight table gives 0.25, 0.15, 0.15, 0.10 and 0.15 to the five criteria. It gives 0.20 to `jd` only when a job description is present. |
| Scorer.RawScoreMonotone | resumate-backend/atsapi/resumate_scorer.py:91-98 | Under the weight table, raising any sub-score never lowers `raw_score`. |
| Scorer.NormalisedScore | resumate-backend/atsapi/resumate_scorer.py:100-108 | The normalised score is `raw_score` divided by 1.00 with a similarity score and by 0.80 without one. |
| Scorer.TotalScore | resumate-backend/atsapi/resumate_scorer.py:108-109 | The total is the normalised score clamped from above at 100. It never exceeds 100 and is non-negative whenever every sub-score used is non-negative. |
| Scorer.TotalIsClampedMean | resumate-backend/atsapi/resumate_scorer.py:91-109 | With every sub-score in [lo, hi] and hi at most 100, the clamp does not change the score, and the total lies in [lo, hi]. |
| Scorer.TotalScoreMonotone | resumate-backend/atsapi/resumate_scorer.py:91-109 | Raising any sub-score never lowers the total. |
| Scorer.NormalisedWithin | resumate-backend/atsapi/resumate_scorer.py:91-108 | `raw / total_used_weight` is a weighted mean: it lies between the smallest and largest sub-score used. |
| Scorer.NoJobDescriptionFullMarks | resumate-backend/atsapi/resumate_scorer.py:91-109 | Without a job description, full marks on every criterion give 100. Renormalisation removes the cap of 80. |
| Scorer.Label | resumate-backend/atsapi/resumate_scorer.py:113-120 | "Excellent" iff ≥ 85, "Good" iff in [70, 85), "Fair" iff in [55, 70), "Needs Improvement" iff < 55. |
| Scorer.LabelMonotone | resumate-backend/atsapi/resumate_scorer.py:113-120 | A higher score never gets a lower tier. |
| Scorer.FiredExactly | resumate-backend/atsapi/resumate_scorer.py:124-133 | After trying the first k rules, the list holds exactly the rules among them that fire, each once, in rule order. |
| Scorer.SuggestionsSpec | resumate-backend/atsapi/resumate_scorer.py:123-135 | The list has 1 to 5 entries in rule order, and each rule's message appears iff that rule fires. The affirmative message appears iff no rule fires, and then it is the only entry. |
| Scorer.BuildSuggestions | resumate-backend/atsapi/resumate_scorer.py:123-135 | The appended list equals the specified suggestions: 1 to 5 entries in rule order, each rule present iff it fires, the affirmative message iff none fires. |
| Scorer.ComputeResumeScore | resumate-backend/atsapi/resumate_scorer.py:71-156 | The observations carry one match count per metric pattern, five in all. The method fails only on an empty vocabulary with a truthy job description. On success, every breakdown and detail field is its sub-scorer's result. The `jd` score is present iff the job description is truthy, so an empty string counts as absent. The total lies in [0, 100] and is the clamped renormalised score, the label is that score's tier, and the suggestions are the specified list. |

## Left out

- The NLTK corpus downloads (`resumate_scorer.py:9-10`) and the English stop-word list: the list is the parameter `stop`.
- Text.CleanText: tokenises with `str.split()` semantics instead of NLTK's `word_tokenize`, which also splits a few words such as "cannot" into "can" and "not".
- Text.Lower: lowercases ASCII letters only. Python's `str.lower()` also maps some non-ASCII characters to ASCII ones (the Kelvin sign to "k"), which can change a section or LinkedIn test.
- The regular-expression engine: the e-mail and LinkedIn-URL searches and the five metric patterns are represented only by their results (`Observations`). `Metrics.MetricPatterns` records the patterns' text.
- The grammar service (`language_tool_python`), a network call. Only the issue count it returns is modelled. A failure of the call, which propagates as an exception in the source, is not modelled.
- The TF-IDF vectorisation and cosine similarity: the cosine is an input in [0, 1]. Its value for particular texts (for example 1 for identical texts) is not derived.
- Grammar.GrammarScore: the score is not rounded to two decimals as `round(score, 2)` does. A score just below 80 that rounds to 80.0 therefore triggers the grammar suggestion in the model but not in the source.
- Scorer.TotalScore: the total is not rounded to two decimals. The weights are summed exactly; in binary floating point their sum need not be exactly 1.0 or 0.8. Near a label threshold, rounding can change the label.
- Similarity.JdMatchScore: the similarity is not rounded to two decimals.
- `resumate-backend/atsapi/views.py` (HTTP handling, file upload, PDF/DOCX text extraction, error serialisation) and the React front end are not part of this model.
