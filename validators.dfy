/** The field validator shared by the text of posts and of comments. */
module Validators {

  /** A raised `ValidationError`: its message and its `params` mapping. */
  datatype ValidationError = ValidationError(message: string, params: map<string, string>)

  /** What a validator does with a value: return quietly, or raise. */
  datatype Verdict = Passed | Raised(error: ValidationError)

  /** The message of the error raised for an empty text. */
  const EmptyTextMessage: string := "Заполните поле \"Текст\"."

  /**
    `validate_not_empty`: raises exactly when the value is the empty
    string, and then reports the value under the `value` parameter. It does
    not trim: a value made only of spaces passes.
  */
  function ValidateNotEmpty(value: string): (r: Verdict)
    ensures r.Raised? <==> value == ""
    ensures r.Raised? ==> r.error.message == EmptyTextMessage
    ensures r.Raised? ==> "value" in r.error.params && r.error.params["value"] == value
  {
    if value == "" then Raised(ValidationError(EmptyTextMessage, map["value" := value]))
    else Passed
  }
}
