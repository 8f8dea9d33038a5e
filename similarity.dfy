/**
 * `jd_match_score`: both texts are normalised, vectorised with TF-IDF over
 * the two-document corpus, and compared by cosine similarity. The vector
 * arithmetic is outside this model: the cosine is an input in [0, 1].
 */
module Similarity {
  import opened Common
  import opened Text

  /** The exception the vectoriser raises when neither document has a term. */
  datatype ScoreError = EmptyVocabulary

  /**
   * The vectoriser's default token pattern `\b\w\w+\b` finds a term in a
   * normalised text exactly when one of its words is at least two characters long.
   */
  predicate HasVocabulary(cleaned: string) {
    exists i :: 0 <= i < |SplitWords(cleaned)| && |SplitWords(cleaned)[i]| >= 2
  }

  /** `jd_match_score(resume_text, jd_text)`, before rounding to two decimals. */
  function JdMatchScore(resume: string, jd: string, stop: set<string>, cosine: real): (r: Result<real, ScoreError>)
    requires 0.0 <= cosine <= 1.0
    ensures r.Failure? <==> !HasVocabulary(CleanText(resume, stop)) && !HasVocabulary(CleanText(jd, stop))
    ensures r.Success? ==> 0.0 <= r.value <= 100.0 && r.value == cosine * 100.0
  {
    if !HasVocabulary(CleanText(resume, stop)) && !HasVocabulary(CleanText(jd, stop)) then
      Failure(EmptyVocabulary)
    else
      Success(cosine * 100.0)
  }

  /** A job description with no letters or digits leaves the vocabulary to the résumé. */
  lemma BlankJobDescription(jd: string, stop: set<string>)
    requires forall c :: c in jd ==> !IsKept(c) || c == ' '
    ensures !HasVocabulary(CleanText(jd, stop))
  {
    var low := Lower(StripDisallowed(jd));
    forall i | 0 <= i < |low| ensures IsSpace(low[i]) {
      assert StripDisallowed(jd)[i] in StripDisallowed(jd);
    }
    SplitBlank(low);
    assert RawTokens(jd) == [];
    assert CleanText(jd, stop) == [];
  }
}
