/** `check_length`: a three-tier step function on the word count. */
module Length {
  import Text

  /** 100 for 300..950 words, 80 for 250..299 or 951..1100, 60 otherwise. */
  function LengthScore(words: nat): (score: nat)
    ensures score == 100 <==> 300 <= words <= 950
    ensures score == 80 <==> (250 <= words < 300) || (950 < words <= 1100)
    ensures score == 60 <==> words < 250 || words > 1100
  {
    if 300 <= words <= 950 then 100
    else if (250 <= words < 300) || (950 < words <= 1100) then 80
    else 60
  }

  /** `check_length(text)`: the tier score and `len(text.split())`. */
  function CheckLength(text: string): (r: (nat, nat))
    ensures r.1 == |Text.SplitWords(text)|
    ensures r.0 == 100 <==> 300 <= r.1 <= 950
    ensures r.0 in {60, 80, 100}
    ensures r.0 == LengthScore(r.1)
  {
    var words := |Text.SplitWords(text)|;
    (LengthScore(words), words)
  }

  /** The tier boundaries, and the empty résumé. */
  lemma LengthBoundaries()
    ensures LengthScore(0) == 60 && LengthScore(249) == 60 && LengthScore(250) == 80
    ensures LengthScore(299) == 80 && LengthScore(300) == 100 && LengthScore(950) == 100
    ensures LengthScore(951) == 80 && LengthScore(1100) == 80 && LengthScore(1101) == 60
  {
  }
}
