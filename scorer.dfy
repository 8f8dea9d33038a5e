/**
 * `compute_resume_score`: runs the sub-scorers, combines them with a fixed
 * weight table renormalised by the weights actually used, clamps the total
 * to 100, labels it, and builds the ordered list of suggestions.
 */
module Scorer {
  import opened Common
  import Text
  import Sections
  import Contact
  import Metrics
  import Grammar
  import Length
  import Similarity

  // ---------------------------------------------------------------- inputs

  /**
   * What the scorer learns from code outside this model: the two regular
   * expression searches of the contact detector, the per-pattern match
   * counts of the metric detector, the grammar checker's issue count and
   * the TF-IDF cosine similarity.
   */
  datatype Observations = Observations(
    emailMatch: bool,
    profileUrlMatch: bool,
    metricCounts: seq<nat>,
    grammarIssues: nat,
    cosine: real)

  /** `if job_desc`: both a missing and an empty job description are falsy. */
  predicate HasJobDescription(jobDesc: Option<string>) {
    jobDesc.Some? && jobDesc.value != ""
  }

  // ---------------------------------------------------------------- weights

  /** The `weights` dictionary, in insertion order. */
  function WeightTable(jdPresent: bool): (t: seq<(string, real)>)
    ensures |t| == 6
    ensures forall p, q :: 0 <= p < q < |t| ==> t[p].0 != t[q].0
    ensures forall i :: 0 <= i < |t| ==> 0.0 <= t[i].1
    ensures t[5].0 == "jd" && (0.0 < t[5].1 <==> jdPresent)
    ensures forall i :: 0 <= i < 5 ==> 0.0 < t[i].1
  {
    var t := [("section", 0.25), ("contact", 0.15), ("metric", 0.15), ("grammar", 0.10),
              ("length", 0.15), ("jd", if jdPresent then 0.20 else 0.0)];
    forall p, q | 0 <= p < q < |t| ensures t[p].0 != t[q].0 {
      assert t[p].0[0] != t[q].0[0];
    }
    t
  }

  /** `weights[key]`. */
  function WeightOf(table: seq<(string, real)>, key: string): real {
    if table == [] then 0.0
    else if table[0].0 == key then table[0].1
    else WeightOf(table[1..], key)
  }

  /** `{k: v for k, v in weights.items() if k != 'jd' or jd_score is not None}`. */
  function UsedWeights(table: seq<(string, real)>, jdPresent: bool): (used: seq<(string, real)>)
    ensures |used| <= |table|
    ensures forall e :: e in used <==> e in table && (e.0 != "jd" || jdPresent)
  {
    if table == [] then []
    else
      assert forall e :: e in table <==> e == table[0] || e in table[1..];
      (if table[0].0 != "jd" || jdPresent then [table[0]] else []) + UsedWeights(table[1..], jdPresent)
  }

  /** `sum(used_weights.values())`. */
  function TotalWeight(entries: seq<(string, real)>): real {
    if entries == [] then 0.0 else entries[0].1 + TotalWeight(entries[1..])
  }

  /** The weights used sum to 1.00 with a job description and to 0.80 without one. */
  lemma UsedWeightTotal(jdPresent: bool)
    ensures TotalWeight(UsedWeights(WeightTable(jdPresent), jdPresent)) == if jdPresent then 1.0 else 0.8
  {
    var t := WeightTable(jdPresent);
    var u5 := UsedWeights(t[5..], jdPresent);
    assert t[5..][1..] == [];
    assert u5 == if jdPresent then t[5..] else [];
    var u4 := UsedWeights(t[4..], jdPresent);
    assert t[4..][1..] == t[5..];
    assert u4 == [t[4]] + u5;
    var u3 := UsedWeights(t[3..], jdPresent);
    assert t[3..][1..] == t[4..];
    assert u3 == [t[3]] + u4;
    var u2 := UsedWeights(t[2..], jdPresent);
    assert t[2..][1..] == t[3..];
    assert u2 == [t[2]] + u3;
    var u1 := UsedWeights(t[1..], jdPresent);
    assert t[1..][1..] == t[2..];
    assert u1 == [t[1]] + u2;
    assert UsedWeights(t, jdPresent) == [t[0]] + u1;
    assert TotalWeight(u5) == if jdPresent then 0.20 else 0.0;
    assert TotalWeight(u4) == 0.15 + TotalWeight(u5);
    assert TotalWeight(u3) == 0.10 + TotalWeight(u4);
    assert TotalWeight(u2) == 0.15 + TotalWeight(u3);
    assert TotalWeight(u1) == 0.15 + TotalWeight(u2);
  }

  /** Looking up each key of the table gives its nominal weight. */
  lemma WeightsOfTable(jdPresent: bool)
    ensures var t := WeightTable(jdPresent);
      && WeightOf(t, "section") == 0.25 && WeightOf(t, "contact") == 0.15
      && WeightOf(t, "metric") == 0.15 && WeightOf(t, "grammar") == 0.10
      && WeightOf(t, "length") == 0.15 && WeightOf(t, "jd") == if jdPresent then 0.20 else 0.0
  {
    var t := WeightTable(jdPresent);
    var keys := ["section", "contact", "metric", "grammar", "length", "jd"];
    forall i | 0 <= i < 6 ensures WeightOf(t, keys[i]) == t[i].1 {
      WeightAt(t, i);
    }
    assert keys[0] == "section" && keys[1] == "contact" && keys[2] == "metric";
    assert keys[3] == "grammar" && keys[4] == "length" && keys[5] == "jd";
  }

  /** The table's keys are distinct, so looking up the key at index `i` finds entry `i`. */
  lemma {:induction false} WeightAt(t: seq<(string, real)>, i: nat)
    requires forall p, q :: 0 <= p < q < |t| ==> t[p].0 != t[q].0
    requires i < |t|
    ensures WeightOf(t, t[i].0) == t[i].1
  {
    if i > 0 {
      WeightAt(t[1..], i - 1);
    }
  }

  // ---------------------------------------------------------------- aggregation

  /** The `breakdown` record; `jd` is `None` when no job description was given. */
  datatype Breakdown = Breakdown(
    section: real,
    contact: real,
    metric: real,
    grammar: real,
    length: real,
    jd: Option<real>)

  /** Every sub-score that takes part lies in [lo, hi]. */
  predicate SubScoresWithin(b: Breakdown, lo: real, hi: real) {
    && lo <= b.section <= hi && lo <= b.contact <= hi && lo <= b.metric <= hi
    && lo <= b.grammar <= hi && lo <= b.length <= hi
    && (b.jd.Some? ==> lo <= b.jd.value <= hi)
  }

  /** Every sub-score that takes part is at least 0. */
  predicate SubScoresNonNegative(b: Breakdown) {
    && 0.0 <= b.section && 0.0 <= b.contact && 0.0 <= b.metric
    && 0.0 <= b.grammar && 0.0 <= b.length
    && (b.jd.Some? ==> 0.0 <= b.jd.value)
  }

  /** No sub-score of `b` exceeds the matching one of `c`, and both have or lack a similarity score. */
  predicate Dominated(b: Breakdown, c: Breakdown) {
    && b.section <= c.section && b.contact <= c.contact && b.metric <= c.metric
    && b.grammar <= c.grammar && b.length <= c.length
    && b.jd.Some? == c.jd.Some?
    && (b.jd.Some? ==> b.jd.value <= c.jd.value)
  }

  /** `raw_score`: the weighted sum of the sub-scores. */
  function RawScore(b: Breakdown, weights: seq<(string, real)>): real {
    WeightOf(weights, "section") * b.section
      + WeightOf(weights, "contact") * b.contact
      + WeightOf(weights, "metric") * b.metric
      + WeightOf(weights, "grammar") * b.grammar
      + WeightOf(weights, "length") * b.length
      + (if b.jd.Some? then WeightOf(weights, "jd") * b.jd.value else 0.0)
  }

  /** Under the fixed weight table, raising sub-scores never lowers the raw score. */
  lemma RawScoreMonotone(b: Breakdown, c: Breakdown)
    requires Dominated(b, c)
    ensures RawScore(b, WeightTable(b.jd.Some?)) <= RawScore(c, WeightTable(c.jd.Some?))
  {
    WeightsOfTable(b.jd.Some?);
  }

  /** `raw_score / total_used_weight`, before the clamp: the divisor is 1.00 or 0.80. */
  function NormalisedScore(b: Breakdown): (n: real)
    ensures n == RawScore(b, WeightTable(b.jd.Some?)) / (if b.jd.Some? then 1.0 else 0.8)
  {
    var weights := WeightTable(b.jd.Some?);
    UsedWeightTotal(b.jd.Some?);
    RawScore(b, weights) / TotalWeight(UsedWeights(weights, b.jd.Some?))
  }

  /** `min(raw_score / total_used_weight, 100)`. */
  function TotalScore(b: Breakdown): (total: real)
    ensures total == Min(NormalisedScore(b), 100.0)
    ensures total <= 100.0
    ensures SubScoresNonNegative(b) ==> 0.0 <= total
  {
    NormalisedNonNegative(b);
    Min(NormalisedScore(b), 100.0)
  }

  lemma NormalisedNonNegative(b: Breakdown)
    ensures SubScoresNonNegative(b) ==> 0.0 <= NormalisedScore(b)
  {
    if SubScoresNonNegative(b) {
      WeightsOfTable(b.jd.Some?);
      assert 0.0 <= RawScore(b, WeightTable(b.jd.Some?));
    }
  }

  /** With sub-scores in [lo, hi] and hi at most 100, the clamp never bites and the total stays in [lo, hi]. */
  lemma TotalIsClampedMean(b: Breakdown, lo: real, hi: real)
    requires SubScoresWithin(b, lo, hi) && hi <= 100.0
    ensures lo <= TotalScore(b) <= hi
    ensures TotalScore(b) == NormalisedScore(b)
  {
    NormalisedWithin(b, lo, hi);
  }

  /** Raising any sub-score never lowers the total. */
  lemma TotalScoreMonotone(b: Breakdown, c: Breakdown)
    requires Dominated(b, c)
    ensures TotalScore(b) <= TotalScore(c)
  {
    RawScoreMonotone(b, c);
  }

  /** Renormalising makes the total a weighted mean: it lies between the smallest and largest sub-score used. */
  lemma NormalisedWithin(b: Breakdown, lo: real, hi: real)
    requires SubScoresWithin(b, lo, hi)
    ensures lo <= NormalisedScore(b) <= hi
  {
    var jd := b.jd.Some?;
    var weights := WeightTable(jd);
    UsedWeightTotal(jd);
    WeightsOfTable(jd);
    var w := TotalWeight(UsedWeights(weights, jd));
    var raw := RawScore(b, weights);
    var jdTerm := if jd then 0.20 * b.jd.value else 0.0;
    assert raw == 0.25 * b.section + 0.15 * b.contact + 0.15 * b.metric
                  + 0.10 * b.grammar + 0.15 * b.length + jdTerm;
    assert NormalisedScore(b) == raw / w;
    if jd {
      assert w == 1.0;
      assert lo * w <= raw <= hi * w;
    } else {
      assert w == 0.8;
      assert lo * w <= raw <= hi * w;
    }
    QuotientWithin(raw, w, lo, hi);
  }

  lemma QuotientWithin(x: real, w: real, lo: real, hi: real)
    requires w > 0.0 && lo * w <= x <= hi * w
    ensures lo <= x / w <= hi
  {
    assert x / w * w == x;
  }

  /** Without a job description a résumé can still reach 100: the cap is not 80. */
  lemma NoJobDescriptionFullMarks(b: Breakdown)
    requires b.jd.None?
    requires b.section >= 100.0 && b.contact == 100.0 && b.metric == 100.0
    requires b.grammar == 100.0 && b.length == 100.0
    ensures TotalScore(b) == 100.0
  {
    NormalisedWithin(b, 100.0, b.section);
  }

  // ---------------------------------------------------------------- label

  /** The four quality tiers, with the label text the scorer returns. */
  datatype Quality = NeedsImprovement | Fair | Good | Excellent {
    function Display(): string {
      match this
      case Excellent => "Excellent \U{2705}"
      case Good => "Good \U{1F44D}"
      case Fair => "Fair \U{26A0}\U{FE0F}"
      case NeedsImprovement => "Needs Improvement \U{274C}"
    }

    function Tier(): nat {
      match this
      case NeedsImprovement => 0
      case Fair => 1
      case Good => 2
      case Excellent => 3
    }
  }

  /** The label: at least 85, 70 and 55 are the lower bounds of the top three tiers. */
  function Label(score: real): (q: Quality)
    ensures q == Excellent <==> score >= 85.0
    ensures q == Good <==> 70.0 <= score < 85.0
    ensures q == Fair <==> 55.0 <= score < 70.0
    ensures q == NeedsImprovement <==> score < 55.0
  {
    if score >= 85.0 then Excellent
    else if score >= 70.0 then Good
    else if score >= 55.0 then Fair
    else NeedsImprovement
  }

  /** A higher score never gets a lower tier. */
  lemma LabelMonotone(x: real, y: real)
    requires x <= y
    ensures Label(x).Tier() <= Label(y).Tier()
  {
  }

  // ---------------------------------------------------------------- suggestions

  /** The `details` record. */
  datatype Details = Details(
    sectionsFound: map<string, bool>,
    contactInfo: Contact.ContactInfo,
    metricCount: nat,
    grammarIssues: nat,
    wordCount: nat)

  /** The suggestions in the order their rules are tried, then the affirmative message. */
  datatype Suggestion = IncludeSections | ShowContact | AddMetrics | FixGrammar | AdjustLength | LooksReady {
    function Message(): string {
      match this
      case IncludeSections => "Include all core sections: Skills, Experience, Projects, Education."
      case ShowContact => "Make sure email and LinkedIn are clearly visible."
      case AddMetrics => "Add more quantifiable achievements."
      case FixGrammar => "Fix grammatical and spelling errors."
      case AdjustLength => "Resume should ideally be 300\U{2013}950 words for better ATS readability."
      case LooksReady => "Great job! Your resume looks ATS-ready."
    }

    function Rank(): nat {
      match this
      case IncludeSections => 0
      case ShowContact => 1
      case AddMetrics => 2
      case FixGrammar => 3
      case AdjustLength => 4
      case LooksReady => 5
    }
  }

  /** The trigger of each rule; the affirmative message has none of its own. */
  predicate Fires(s: Suggestion, b: Breakdown, d: Details) {
    match s
    case IncludeSections => b.section < 90.0
    case ShowContact => !d.contactInfo.emailPresent || !d.contactInfo.linkedinPresent
    case AddMetrics => b.metric < 40.0
    case FixGrammar => b.grammar < 80.0
    case AdjustLength => !(300 <= d.wordCount <= 950)
    case LooksReady => false
  }

  predicate AnyRuleFires(b: Breakdown, d: Details) {
    exists s: Suggestion :: Fires(s, b, d)
  }

  /** No two entries share a rule, and they appear in the order the rules are tried. */
  predicate InRuleOrder(tips: seq<Suggestion>) {
    forall p, q :: 0 <= p < q < |tips| ==> tips[p].Rank() < tips[q].Rank()
  }

  /** The rules in the order they are tried. */
  const Rules: seq<Suggestion> := [IncludeSections, ShowContact, AddMetrics, FixGrammar, AdjustLength]

  /** The rules among the first `k` that fire, in the order they are tried. */
  function Fired(b: Breakdown, d: Details, k: nat): seq<Suggestion>
    requires k <= |Rules|
  {
    if k == 0 then []
    else Fired(b, d, k - 1) + (if Fires(Rules[k - 1], b, d) then [Rules[k - 1]] else [])
  }

  /** The suggestions: the rules that fire or, when none does, the affirmative message alone. */
  function Suggestions(b: Breakdown, d: Details): seq<Suggestion> {
    var fired := Fired(b, d, |Rules|);
    if fired == [] then [LooksReady] else fired
  }

  lemma RuleRanks()
    ensures forall i :: 0 <= i < |Rules| ==> Rules[i].Rank() == i
  {
  }

  /** The first `k` rules: exactly those that fire, each once, in rule order. */
  lemma {:induction false} FiredExactly(b: Breakdown, d: Details, k: nat)
    requires k <= |Rules|
    ensures |Fired(b, d, k)| <= k
    ensures InRuleOrder(Fired(b, d, k))
    ensures forall s :: s in Fired(b, d, k) <==> Fires(s, b, d) && s.Rank() < k
  {
    RuleRanks();
    if k > 0 {
      FiredExactly(b, d, k - 1);
      var prev := Fired(b, d, k - 1);
      var r := Rules[k - 1];
      var next := Fired(b, d, k);
      forall s ensures s in next <==> Fires(s, b, d) && s.Rank() < k {
        if s.Rank() == k - 1 {
          assert s == r;
        }
      }
      if Fires(r, b, d) {
        forall p, q | 0 <= p < q < |next| ensures next[p].Rank() < next[q].Rank() {
          if q == |prev| {
            assert next[p] in prev;
          }
        }
      } else {
        assert next == prev;
      }
    }
  }

  /** The list is never empty, holds at most one entry per rule, in rule order, and ends the affirmative way only alone. */
  lemma SuggestionsSpec(b: Breakdown, d: Details)
    ensures var tips := Suggestions(b, d);
      && 1 <= |tips| <= 5
      && InRuleOrder(tips)
      && (forall s :: s != LooksReady ==> (s in tips <==> Fires(s, b, d)))
      && (LooksReady in tips <==> !AnyRuleFires(b, d))
      && (LooksReady in tips ==> tips == [LooksReady])
  {
    FiredExactly(b, d, |Rules|);
    var fired := Fired(b, d, |Rules|);
    forall s: Suggestion ensures s.Rank() < |Rules| || s == LooksReady { }
    if AnyRuleFires(b, d) {
      var s :| Fires(s, b, d);
      assert s in fired;
    }
    if fired != [] {
      assert fired[0] in fired;
    }
  }

  /** The `suggestions` list, built by appending one message per rule that fires. */
  method BuildSuggestions(b: Breakdown, d: Details) returns (tips: seq<Suggestion>)
    ensures tips == Suggestions(b, d)
    ensures 1 <= |tips| <= 5
    ensures InRuleOrder(tips)
    ensures forall s :: s != LooksReady ==> (s in tips <==> Fires(s, b, d))
    ensures LooksReady in tips <==> !AnyRuleFires(b, d)
  {
    tips := [];
    if b.section < 90.0 {
      tips := tips + [IncludeSections];
    }
    assert tips == Fired(b, d, 1);
    if !d.contactInfo.emailPresent || !d.contactInfo.linkedinPresent {
      tips := tips + [ShowContact];
    }
    assert tips == Fired(b, d, 2);
    if b.metric < 40.0 {
      tips := tips + [AddMetrics];
    }
    assert tips == Fired(b, d, 3);
    if b.grammar < 80.0 {
      tips := tips + [FixGrammar];
    }
    assert tips == Fired(b, d, 4);
    if !(300 <= d.wordCount <= 950) {
      tips := tips + [AdjustLength];
    }
    assert tips == Fired(b, d, 5);
    if tips == [] {
      tips := tips + [LooksReady];
    }
    SuggestionsSpec(b, d);
  }

  // ---------------------------------------------------------------- the whole run

  /** The dictionary `compute_resume_score` returns. */
  datatype ScoringResult = ScoringResult(
    score: real,
    quality: Quality,
    breakdown: Breakdown,
    details: Details,
    suggestions: seq<Suggestion>)

  /** `compute_resume_score(resume_text, job_desc)`; the exception of the vectoriser becomes a `Failure`. */
  method ComputeResumeScore(resumeText: string, jobDesc: Option<string>, stop: set<string>, obs: Observations)
    returns (result: Result<ScoringResult, Similarity.ScoreError>)
    requires 0.0 <= obs.cosine <= 1.0
    requires |obs.metricCounts| == |Metrics.MetricPatterns|
    ensures result.Failure? <==>
      HasJobDescription(jobDesc)
      && !Similarity.HasVocabulary(Text.CleanText(resumeText, stop))
      && !Similarity.HasVocabulary(Text.CleanText(jobDesc.value, stop))
    ensures result.Success? ==> var r := result.value; r.breakdown.section == Sections.CheckResumeSections(resumeText).score
    ensures result.Success? ==> var r := result.value; r.details.sectionsFound == Sections.CheckResumeSections(resumeText).found
    ensures result.Success? ==> var r := result.value; r.details.contactInfo == Contact.CheckContactInfo(resumeText, obs.emailMatch, obs.profileUrlMatch).1
    ensures result.Success? ==> var r := result.value; r.breakdown.contact == Contact.ContactScore(r.details.contactInfo.emailPresent, r.details.contactInfo.linkedinPresent) as real
    ensures result.Success? ==> var r := result.value; r.details.metricCount == Metrics.Sum(obs.metricCounts)
    ensures result.Success? ==> var r := result.value; r.breakdown.metric == Metrics.MetricScore(r.details.metricCount) as real
    ensures result.Success? ==> var r := result.value; r.details.grammarIssues == obs.grammarIssues
    ensures result.Success? ==> var r := result.value; r.details.wordCount == |Text.SplitWords(resumeText)|
    ensures result.Success? ==> var r := result.value; r.breakdown.grammar == Grammar.GrammarScore(obs.grammarIssues, r.details.wordCount)
    ensures result.Success? ==> var r := result.value; r.breakdown.length == Length.LengthScore(r.details.wordCount) as real
    ensures result.Success? ==> var r := result.value; (r.breakdown.jd.Some? <==> HasJobDescription(jobDesc))
    ensures result.Success? ==> var r := result.value; (r.breakdown.jd.Some? ==> r.breakdown.jd.value == obs.cosine * 100.0)
    ensures result.Success? ==> var r := result.value; SubScoresWithin(r.breakdown, 0.0, 105.0)
    ensures result.Success? ==> var r := result.value; 0.0 <= r.score <= 100.0
    ensures result.Success? ==> var r := result.value; r.score == TotalScore(r.breakdown)
    ensures result.Success? ==> var r := result.value; r.quality == Label(r.score)
    ensures result.Success? ==> var r := result.value; r.suggestions == Suggestions(r.breakdown, r.details)
  {
    var sections := Sections.CheckResumeSections(resumeText);
    var contact := Contact.CheckContactInfo(resumeText, obs.emailMatch, obs.profileUrlMatch);
    var metrics := Metrics.CheckMetrics(obs.metricCounts);
    var grammar := Grammar.CheckGrammar(resumeText, obs.grammarIssues);
    var length := Length.CheckLength(resumeText);
    var jdScore: Option<real> := None;
    if HasJobDescription(jobDesc) {
      var sim := Similarity.JdMatchScore(resumeText, jobDesc.value, stop, obs.cosine);
      if sim.Failure? {
        return Failure(sim.error);
      }
      jdScore := Some(sim.value);
    }

    var breakdown := Breakdown(sections.score, contact.0 as real, metrics.0 as real,
                               grammar.0, length.0 as real, jdScore);
    var details := Details(sections.found, contact.1, metrics.1, grammar.1, length.1);
    assert SubScoresWithin(breakdown, 0.0, 105.0);
    var total := TotalScore(breakdown);
    var quality := Label(total);
    var tips := BuildSuggestions(breakdown, details);
    result := Success(ScoringResult(total, quality, breakdown, details, tips));
  }

  /** `if job_desc` (line 78): an empty job description is scored exactly as a missing one. */
  method EmptyJobDescriptionIgnored(resumeText: string, stop: set<string>, obs: Observations)
    returns (withEmpty: Result<ScoringResult, Similarity.ScoreError>,
             withNone: Result<ScoringResult, Similarity.ScoreError>)
    requires 0.0 <= obs.cosine <= 1.0
    requires |obs.metricCounts| == |Metrics.MetricPatterns|
    ensures withNone.Success? && withNone.value.breakdown.jd == None
    ensures withEmpty == withNone
  {
    withEmpty := ComputeResumeScore(resumeText, Some(""), stop, obs);
    withNone := ComputeResumeScore(resumeText, None, stop, obs);
  }
}
