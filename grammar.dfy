/** The arithmetic of `check_grammar`: an issue count per word mapped into [70, 100]. */
module Grammar {
  import opened Common
  import Text

  /** `len(matches) / words if words else 0`. */
  function ErrorRate(issues: nat, words: nat): (rate: real)
    ensures 0.0 <= rate
    ensures rate == 0.0 <==> words == 0 || issues == 0
  {
    if words != 0 then issues as real / words as real else 0.0
  }

  /** `max(100 - error_rate * 300, 70)`. */
  function GrammarScore(issues: nat, words: nat): (score: real)
    ensures 70.0 <= score <= 100.0
    ensures (words == 0 || issues == 0) ==> score == 100.0
  {
    Max(100.0 - ErrorRate(issues, words) * 300.0, 70.0)
  }

  /**
   * `check_grammar(text)`: `issues` is the number of issues the external
   * checker reports; the word count is `len(text.split())`.
   */
  function CheckGrammar(text: string, issues: nat): (r: (real, nat))
    ensures r.1 == issues
    ensures 70.0 <= r.0 <= 100.0
    ensures Text.SplitWords(text) == [] ==> r.0 == 100.0
    ensures issues == 0 ==> r.0 == 100.0
    ensures r.0 == GrammarScore(issues, |Text.SplitWords(text)|)
  {
    (GrammarScore(issues, |Text.SplitWords(text)|), issues)
  }

  /** For a fixed word count, more issues never raise the score. */
  lemma GrammarAntitone(i1: nat, i2: nat, words: nat)
    requires i1 <= i2
    ensures GrammarScore(i2, words) <= GrammarScore(i1, words)
  {
    if words != 0 {
      var w := words as real;
      assert i2 as real / w - i1 as real / w == (i2 - i1) as real / w;
    }
  }

  /** For a fixed issue count, more words never lower the score. */
  lemma GrammarMonotoneInWords(issues: nat, w1: nat, w2: nat)
    requires 0 < w1 <= w2
    ensures GrammarScore(issues, w1) <= GrammarScore(issues, w2)
  {
    QuotientAntitone(issues as real, w1 as real, w2 as real);
  }

  /** Dividing a non-negative amount by a larger positive number gives no more. */
  lemma QuotientAntitone(i: real, w1: real, w2: real)
    requires 0.0 <= i && 0.0 < w1 <= w2
    ensures i / w2 <= i / w1
  {
    var few := i / w1;
    var many := i / w2;
    assert few * w1 == i;
    assert many * w2 == i;
    assert 0.0 <= few;
    assert few * w1 <= few * w2 by {
      assert few * w2 - few * w1 == few * (w2 - w1);
      NonNegativeProduct(few, w2 - w1);
    }
    assert (many - few) * w2 == many * w2 - few * w2;
    SignOfProduct(many - few, w2);
  }

  lemma NonNegativeProduct(a: real, b: real)
    requires 0.0 <= a && 0.0 <= b
    ensures 0.0 <= a * b
  {
  }

  /** A product with a positive factor has the sign of the other factor. */
  lemma SignOfProduct(a: real, w: real)
    requires w > 0.0
    ensures a * w > 0.0 <==> a > 0.0
  {
    if a <= 0.0 {
      assert a * w <= 0.0 * w;
    }
  }

  /** Below 80 means the error rate exceeds one issue per 15 words. */
  lemma Below80IffRate(issues: nat, words: nat)
    ensures GrammarScore(issues, words) < 80.0 <==> ErrorRate(issues, words) * 15.0 - 1.0 > 0.0
  {
  }

  /** The grammar suggestion (score below 80) fires exactly when there is more than one issue per 15 words. */
  lemma GrammarBelow80Iff(issues: nat, words: nat)
    ensures GrammarScore(issues, words) < 80.0 <==> words > 0 && 15 * issues > words
  {
    Below80IffRate(issues, words);
    if words > 0 {
      var w := words as real;
      var rate := ErrorRate(issues, words);
      var a := rate * 15.0 - 1.0;
      assert rate * w == issues as real;
      assert a * w == (15 * issues - words) as real;
      SignOfProduct(a, w);
    }
  }
}
