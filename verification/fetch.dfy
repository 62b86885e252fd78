/** What a page sees of one `fetch` call. Transport is not modelled: the
    outcome is an input. */
module Fetch {
  import opened JsValues

  /** `Answered` carries `response.ok` and the parsed JSON body; `Failed`
      stands for a request or body-parsing error, with its message. */
  datatype FetchOutcome = Answered(ok: bool, data: Json) | Failed(message: string)

  /** Stands for the message of a `TypeError` the JavaScript engine raises.
      Its wording is the engine's choice, so the model names it only. */
  const TypeErrorMessage := "TypeError"

  /** The message `new Error(data.error || fallback)` carries once a non-ok
      reply has been parsed. Reading `.error` of a `null` body throws a
      `TypeError`, and so does converting a truthy `error` that is not
      `Convertible` to the message string. */
  function ErrorText(data: Json, fallback: string): (m: string)
    ensures data.JNull? ==> m == TypeErrorMessage
    ensures data.JObj? && Has(data.fields, "error") && Convertible(data.fields["error"]) ==>
      m == ToJsString(data.fields["error"])
    ensures data.JObj? && Has(data.fields, "error") && !Convertible(data.fields["error"]) ==>
      m == TypeErrorMessage
    ensures !data.JNull? && !(data.JObj? && Has(data.fields, "error")) ==> m == fallback
  {
    if data.JNull? then TypeErrorMessage
    else if data.JObj? && Has(data.fields, "error") then
      var e := data.fields["error"];
      if Convertible(e) then ToJsString(e) else TypeErrorMessage
    else fallback
  }

  /** An `error` object with its own `toString` cannot become a message:
      `new Error` throws, and the page shows the `TypeError` instead. */
  lemma OwnToStringErrorThrows(fallback: string)
    ensures ErrorText(JObj(map["error" := JObj(map["toString" := JNum(0)])]), fallback) == TypeErrorMessage
  {
  }

  /** A toast shown to the user. */
  datatype Toast = NoToast | Success(message: string) | Failure(message: string)
}
