/** What the three mentee forms have in common: text fields kept in a map,
    the script's required-field check, `handleInputChange`, and the submit
    handler's success and failure paths. */
module FormSubmit {
  import opened JsValues
  import opened Fetch

  /** The text fields of a form, by name. */
  type Fields = map<string, string>

  /** `formData[field]` read as a string: a missing property is `undefined`,
      which the required-field check treats like the empty string. */
  function Field(f: Fields, name: string): string {
    if name in f then f[name] else ""
  }

  /** `!formData.x` on a text field. */
  predicate Blank(f: Fields, name: string) {
    Field(f, name) == ""
  }

  /** The form with every listed field set to the empty string. */
  function EmptyFields(names: seq<string>): (f: Fields)
    ensures f.Keys == set n | n in names
    ensures forall n :: n in f ==> f[n] == ""
  {
    map n | n in names :: ""
  }

  /** `handleInputChange(field, value)`: `{...prev, [field]: value}`. */
  function SetField(f: Fields, name: string, value: string): (g: Fields)
    ensures g.Keys == f.Keys + {name}
    ensures Field(g, name) == value
    ensures forall n :: n != name ==> Field(g, n) == Field(f, n)
  {
    f[name := value]
  }

  const RequiredMessage := "All required fields must be filled"

  /** The script's `if (!a || !b || ...) throw` check over `required`. */
  function CheckRequired(f: Fields, required: seq<string>): (e: Option<string>)
    ensures e.None? <==> forall i :: 0 <= i < |required| ==> !Blank(f, required[i])
    ensures e.Some? ==> e.value == RequiredMessage
  {
    if exists i :: 0 <= i < |required| && Blank(f, required[i]) then Some(RequiredMessage) else None
  }

  /** `JSON.stringify(formData)` of a form of text fields. */
  function FieldsBody(f: Fields): (body: Json)
    ensures body.JObj? && body.fields.Keys == f.Keys
    ensures forall n :: n in f ==> body.fields[n] == JStr(f[n])
  {
    JObj(StringsToJson(f))
  }

  /** Every required field passed the required-field check, so each reaches the server as
      a truthy string. */
  lemma RequiredFieldsSent(f: Fields, required: seq<string>, name: string)
    requires CheckRequired(f, required).None?
    requires name in required
    ensures Has(FieldsBody(f).fields, name)
  {
    var i :| 0 <= i < |required| && required[i] == name;
    assert !Blank(f, required[i]);
  }

  /** The outcome of one press of the submit button: the form afterwards,
      the request body if a request was sent, whether `onComplete` ran, and
      the toast shown. */
  datatype Submission<S> = Submission(state: S, request: Option<Json>, completed: bool, toast: Toast)

  /** `handleSubmit`. `check` is the script's validation result, `body` what
      `JSON.stringify(formData)` sends, `outcome` what the request yields;
      `success` and `fallback` are the form's own messages. A thrown error
      shows its message; an ok reply calls `onComplete` and resets the form
      to `initial`. */
  function SubmitForm<S>(state: S, initial: S, check: Option<string>, body: Json,
                         outcome: FetchOutcome, success: string, fallback: string): (r: Submission<S>)
    ensures r.request.Some? <==> check.None?
    ensures r.request.Some? ==> r.request.value == body
    ensures r.completed <==> check.None? && outcome.Answered? && outcome.ok
    ensures r.completed ==> r.state == initial && r.toast == Success(success)
    ensures !r.completed ==> r.state == state && r.toast.Failure?
    ensures check.Some? ==> r.toast == Failure(check.value)
    ensures check.None? && outcome.Failed? ==> r.toast == Failure(outcome.message)
    ensures check.None? && outcome.Answered? && !outcome.ok ==>
      r.toast == Failure(ErrorText(outcome.data, fallback))
  {
    match check
    case Some(message) => Submission(state, None, false, Failure(message))
    case None =>
      match outcome
      case Failed(message) => Submission(state, Some(body), false, Failure(message))
      case Answered(ok, data) =>
        if ok then Submission(initial, Some(body), true, Success(success))
        else Submission(state, Some(body), false, Failure(ErrorText(data, fallback)))
  }
}
