/**
 * The two score lookups of the presentation layer: the gauge's title label
 * and the framing of the verdict (success, warning or error).
 */
module Presentation {
  import Scorer
  import Generator

  datatype Option<T> = None | Some(value: T)

  /** The gauge's label table; a score outside it is a failed dictionary lookup. */
  const LabelMap: map<int, string> := map[0 := "Very Weak", 1 := "Weak", 2 := "Weak", 3 := "Moderate", 4 := "Strong"]

  /** Looks a score up in the label table; `None` stands for the lookup error. */
  function Label(score: int): (r: Option<string>)
    ensures r.Some? <==> 0 <= score <= 4
    ensures r.Some? ==> r.value in LabelMap.Values
  {
    if score in LabelMap then Some(LabelMap[score]) else None
  }

  datatype Severity = Success | Warning | Error

  /** How the verdict is framed: 4 is a success, 3 a warning, anything else an error. */
  function SeverityOf(score: int): (r: Severity)
    ensures r == Success <==> score == 4
    ensures r == Warning <==> score == 3
    ensures r == Error <==> score != 3 && score != 4
  {
    if score == 4 then Success
    else if score == 3 then Warning
    else Error
  }

  /** The label lookup never fails on a score the scorer returns. */
  lemma LabelDefinedForEveryScore(password: string)
    ensures Label(Scorer.ExpectedScore(password)).Some?
  {
    Scorer.ScoreInRange(password);
  }

  /** For every score the scorer can return, label and severity tell the same story. */
  lemma SeverityAgreesWithLabel(score: int)
    requires 0 <= score <= 4
    ensures SeverityOf(score) == Success <==> Label(score) == Some("Strong")
    ensures SeverityOf(score) == Warning <==> Label(score) == Some("Moderate")
    ensures SeverityOf(score) == Error <==> Label(score) in {Some("Very Weak"), Some("Weak")}
  {
  }

  /** A blocklisted password is always framed as an error. */
  lemma CommonPasswordIsError(password: string)
    requires Scorer.IsCommon(password)
    ensures SeverityOf(Scorer.ExpectedScore(password)) == Error
    ensures Label(Scorer.ExpectedScore(password)) in {Some("Very Weak"), Some("Weak")}
  {
  }

  /** Every generated password is framed as a success and labelled "Strong". */
  lemma GeneratedPasswordIsSuccess(password: string)
    requires |password| >= 8 && Generator.HasEveryClass(password)
    ensures SeverityOf(Scorer.ExpectedScore(password)) == Success
    ensures Label(Scorer.ExpectedScore(password)) == Some("Strong")
  {
    Generator.GeneratedPasswordIsStrong(password);
  }
}
