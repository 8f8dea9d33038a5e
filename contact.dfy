/** `check_contact_info`: an e-mail test and a LinkedIn test mapped to 100/50/0. */
module Contact {
  import opened Text

  /** `{'email_present': ..., 'linkedin_present': ...}`. */
  datatype ContactInfo = ContactInfo(emailPresent: bool, linkedinPresent: bool)

  /** 100 when both signals are present, 50 when exactly one is, 0 when neither. */
  function ContactScore(email: bool, linkedin: bool): (score: int)
    ensures score == 100 <==> email && linkedin
    ensures score == 50 <==> email != linkedin
    ensures score == 0 <==> !email && !linkedin
  {
    if email && linkedin then 100 else if email || linkedin then 50 else 0
  }

  /**
   * `check_contact_info(text)`. `emailMatch` is the result of searching
   * `text` for `[\w\.-]+@[\w\.-]+\.\w+`; `profileUrlMatch` the result of
   * searching the lowercased text for `linkedin\.com\/(in|pub)\/[\w\-]+`.
   * The bare mention of "linkedin" is tested here.
   */
  function CheckContactInfo(text: string, emailMatch: bool, profileUrlMatch: bool): (r: (int, ContactInfo))
    ensures r.1.emailPresent == emailMatch
    ensures r.1.linkedinPresent <==> profileUrlMatch || Contains(Lower(text), "linkedin")
    ensures r.0 == 100 <==> r.1.emailPresent && r.1.linkedinPresent
    ensures r.0 == 0 <==> !r.1.emailPresent && !r.1.linkedinPresent
    ensures r.0 == 50 <==> r.1.emailPresent != r.1.linkedinPresent
  {
    var linkedin := profileUrlMatch || Contains(Lower(text), "linkedin");
    (ContactScore(emailMatch, linkedin), ContactInfo(emailMatch, linkedin))
  }

  /**
   * Any profile URL the pattern finds begins with "linkedin.com/", so it
   * holds "linkedin" too: the bare-name test alone decides `linkedin_present`.
   */
  lemma ProfileUrlSubsumed(text: string, emailMatch: bool, profileUrlMatch: bool)
    requires profileUrlMatch ==> Contains(Lower(text), "linkedin.com/")
    ensures CheckContactInfo(text, emailMatch, profileUrlMatch).1.linkedinPresent
            == Contains(Lower(text), "linkedin")
  {
    if profileUrlMatch {
      ContainsPrefix(Lower(text), "linkedin.com/", "linkedin");
    }
  }

  /** A text with no e-mail match and no mention of LinkedIn scores 0. */
  lemma NoContactScoresZero(text: string)
    requires !Contains(Lower(text), "linkedin")
    ensures CheckContactInfo(text, false, false).0 == 0
  {
  }
}
