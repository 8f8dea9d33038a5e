/** `check_resume_sections`: case-insensitive substring tests for the section headings. */
module Sections {
  import opened Text

  /** The four headings a résumé must have; each is worth 25 points. */
  const CoreSections: seq<string> := ["skills", "experience", "education", "projects"]

  /** The four bonus headings; together they are worth at most 5 points. */
  const BonusSections: seq<string> := ["certifications", "awards", "achievements", "hackathons"]

  /** `(score, section_found)` as returned by the detector. */
  datatype SectionReport = SectionReport(score: real, found: map<string, bool>)

  /** The eight keys of `section_found`. */
  function SectionNames(): set<string> {
    set s | s in CoreSections + BonusSections
  }

  /** `{s: s in lowered for s in sections + bonus}`. */
  function FindSections(lowered: string): (found: map<string, bool>)
    ensures found.Keys == SectionNames()
    ensures forall s :: s in CoreSections ==> s in found
    ensures forall s :: s in BonusSections ==> s in found
    ensures forall s :: s in found ==> (found[s] <==> Contains(lowered, s))
  {
    map s | s in CoreSections + BonusSections :: Contains(lowered, s)
  }

  /** `sum(...) / len(sections) * 100 + sum(...) / len(bonus) * 5`. */
  function SectionScore(found: map<string, bool>): (score: real)
    requires forall s :: s in CoreSections ==> s in found
    requires forall s :: s in BonusSections ==> s in found
    ensures score == 25.0 * CountFound(CoreSections, found) as real
                   + 1.25 * CountFound(BonusSections, found) as real
    ensures 0.0 <= score <= 105.0
  {
    var core := CountFound(CoreSections, found);
    var bonus := CountFound(BonusSections, found);
    ScaledCount(core, |CoreSections|, 100.0) + ScaledCount(bonus, |BonusSections|, 5.0)
  }

  /** `found / total * points`: the share of `points` earned by `found` of `total` headings. */
  function ScaledCount(found: nat, total: nat, points: real): (r: real)
    requires found <= total && 0 < total && 0.0 <= points
    ensures 0.0 <= r <= points
    ensures r * total as real == found as real * points
  {
    var share := found as real / total as real;
    assert share * total as real == found as real;
    assert share <= 1.0;
    share * points
  }

  /** `sum(found[s] for s in names)`: how many of `names` are flagged. */
  function CountFound(names: seq<string>, found: map<string, bool>): (n: nat)
    requires forall s :: s in names ==> s in found
    ensures n <= |names|
    ensures n == |names| <==> forall s :: s in names ==> found[s]
    ensures n == 0 <==> forall s :: s in names ==> !found[s]
  {
    if names == [] then 0
    else
      assert forall s :: s in names <==> s == names[0] || s in names[1..];
      (if found[names[0]] then 1 else 0) + CountFound(names[1..], found)
  }

  /**
   * `check_resume_sections(text)`. The core score is `found / 4 * 100` and the
   * bonus score `found / 4 * 5`; both are exact multiples of 0.25, so
   * `round(..., 2)` leaves their sum unchanged.
   */
  function CheckResumeSections(text: string): (r: SectionReport)
    ensures r.found.Keys == SectionNames()
    ensures forall s :: s in r.found ==> (r.found[s] <==> Contains(Lower(text), s))
    ensures r.score == 25.0 * CountFound(CoreSections, r.found) as real
                     + 1.25 * CountFound(BonusSections, r.found) as real
    ensures 0.0 <= r.score <= 105.0
  {
    var found := FindSections(Lower(text));
    SectionReport(SectionScore(found), found)
  }

  /** All four core headings and no bonus heading score exactly 100. */
  lemma AllCoreNoBonus(text: string)
    requires forall s :: s in CoreSections ==> Contains(Lower(text), s)
    requires forall s :: s in BonusSections ==> !Contains(Lower(text), s)
    ensures CheckResumeSections(text).score == 100.0
  {
    var r := CheckResumeSections(text);
    assert CountFound(CoreSections, r.found) == 4;
    assert CountFound(BonusSections, r.found) == 0;
  }

  /** The section suggestion (score below 90) fires exactly when a core heading is missing. */
  lemma ScoreBelow90Iff(text: string)
    ensures var r := CheckResumeSections(text);
      r.score < 90.0 <==> exists s :: s in CoreSections && !r.found[s]
  {
    var r := CheckResumeSections(text);
    var nc := CountFound(CoreSections, r.found);
    var nb := CountFound(BonusSections, r.found);
    if nc < 4 {
      assert 25.0 * nc as real <= 75.0;
      assert 1.25 * nb as real <= 5.0;
    }
  }

  /** The headings are matched case-insensitively: lowercasing the résumé first changes nothing. */
  lemma CaseInsensitive(text: string)
    ensures CheckResumeSections(Lower(text)) == CheckResumeSections(text)
  {
    LowerIdempotent(text);
  }
}
