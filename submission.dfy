/**
 * What the submit handler makes of the prediction service's answer: the
 * feedback text derived from a returned label, and the message shown when
 * the request fails.
 */
module Submission {
  import opened Wrappers

  /**
   * How the request ends: a response whose `prediction` is `prediction`, or a
   * rejection whose response body carried `message` (None when there was no
   * response, no body or no `message` key).
   */
  datatype Outcome = Success(prediction: string) | Failure(message: Option<string>)

  /** The stored result `{prediction, feedback}`. */
  datatype Prediction = Prediction(prediction: string, feedback: string)

  const HighRiskLabel := "Diabetic"
  const HighRiskFeedback := "High risk detected. Please consult your doctor immediately."
  const LowRiskFeedback := "Low risk. Continue your healthy lifestyle."
  const ConnectionFailure := "Unable to connect. Please try again."

  /** The feedback text: the urgent advisory for the high-risk label, the reassurance for any other label. */
  function FeedbackFor(prediction: string): (r: string)
    ensures r == HighRiskFeedback <==> prediction == HighRiskLabel
    ensures r == LowRiskFeedback <==> prediction != HighRiskLabel
  {
    if prediction == HighRiskLabel then HighRiskFeedback else LowRiskFeedback
  }

  /** `err.response?.data?.message || fallback`: the service's message when it is present and non-empty. */
  function FailureMessage(message: Option<string>): (r: string)
    ensures message.Some? && message.value != "" ==> r == message.value
    ensures message.None? || message.value == "" ==> r == ConnectionFailure
    ensures r != ""
  {
    match message
    case Some(m) => if m != "" then m else ConnectionFailure
    case None => ConnectionFailure
  }
}
