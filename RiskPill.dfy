/** src/ui/RiskPill.jsx: the colour band of a risk score. Scores are in
    hundredths; the score and the thresholds 0.3 and 0.6 are the doubles
    nearest to whole hundredths, so comparing them compares the hundredths. */
module RiskPill {
  import opened MockApi

  datatype Band = Green | Yellow | Red

  /** How alarming a band is. */
  function Severity(b: Band): nat
  {
    match b
    case Green => 0
    case Yellow => 1
    case Red => 2
  }

  /** The band of a score: red from 0.6, yellow from 0.3, green below. */
  function BandOf(score: int): (b: Band)
    ensures b == Red <==> score >= 60
    ensures b == Yellow <==> 30 <= score < 60
    ensures b == Green <==> score < 30
  {
    if score >= 60 then Red else if score >= 30 then Yellow else Green
  }

  /** A higher score never gets a less severe band. */
  lemma BandMonotone(s1: int, s2: int)
    requires s1 <= s2
    ensures Severity(BandOf(s1)) <= Severity(BandOf(s2))
  {
  }

  /** On the fixture's risk scores: three risky phrases always make a clause
      red, and a clause without risky phrases is never red. */
  lemma BandOfRisk(text: string)
    ensures Hits(text) >= 3 ==> BandOf(RiskScore(text)) == Red
    ensures Hits(text) == 0 ==> BandOf(RiskScore(text)) != Red
  {
  }
}
