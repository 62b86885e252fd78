/** The attendance form: twenty text fields, twelve of which the submit
    handler insists on. */
module AttendanceForm {
  import opened JsValues
  import opened Fetch
  import opened FormSubmit
  import Server
  import KvStore

  /** The keys of `formData`, in declaration order. */
  const FieldNames: seq<string> := [
    "prn", "name", "batch", "mentorName", "sessionDate", "sessionTime",
    "sessionDuration", "sessionType", "attendanceStatus", "sessionTopic",
    "sessionObjectives", "participationLevel", "punctuality", "preparedness",
    "engagementLevel", "questionsAsked", "followUpRequired",
    "nextSessionPlanned", "nextSessionDate", "additionalNotes"]

  /** The fields the submit handler checks. */
  const Required: seq<string> := [
    "prn", "name", "batch", "mentorName", "sessionDate", "sessionTime",
    "sessionDuration", "sessionType", "attendanceStatus", "participationLevel",
    "punctuality", "preparedness"]

  /** The initial form, which is also what a successful submit resets to. */
  const Initial: Fields := EmptyFields(FieldNames)

  const SuccessText := "Attendance submitted successfully!"
  const FallbackText := "Failed to submit attendance"

  /** The submit handler's required-field check. */
  function Validate(f: Fields): (e: Option<string>)
    ensures e.None? <==> forall n :: n in Required ==> !Blank(f, n)
    ensures e.Some? ==> e.value == RequiredMessage
  {
    CheckRequired(f, Required)
  }

  /** `handleSubmit`. */
  function HandleSubmit(f: Fields, outcome: FetchOutcome): (r: Submission<Fields>)
    ensures r.request.Some? <==> forall n :: n in Required ==> !Blank(f, n)
    ensures r.request.Some? ==> r.request.value == FieldsBody(f)
    ensures r.completed <==> r.request.Some? && outcome.Answered? && outcome.ok
    ensures r.completed ==> r.state == Initial && r.toast == Success(SuccessText)
    ensures !r.completed ==> r.state == f && r.toast.Failure?
    ensures r.request.None? ==> r.toast == Failure(RequiredMessage)
    ensures r.request.Some? && outcome.Answered? && !outcome.ok ==>
      r.toast == Failure(ErrorText(outcome.data, FallbackText))
  {
    SubmitForm(f, Initial, Validate(f), FieldsBody(f), outcome, SuccessText, FallbackText)
  }

  /** A form that passes the required-field check is never refused by the server: the
      handler stores it and answers 200. */
  lemma ValidFormAccepted(f: Fields, store: KvStore.Store, now: nat, stamp1: string, stamp2: string)
    requires Validate(f).None?
    ensures var h := Server.Submit(Server.Attendance, store, Some(FieldsBody(f)), now, stamp1, stamp2);
      && h.reply.status == 200
      && h.store[Server.HistoryKey(Server.Attendance, JStr(f["prn"]), now)] == Server.Tagged(Server.Attendance, FieldsBody(f).fields, stamp1)
  {
    RequiredFieldsSent(f, Required, "prn");
    RequiredFieldsSent(f, Required, "name");
  }

  /** The session topic and objectives are marked required in the page but
      the script does not check them: a form with both blank is sent. */
  lemma TopicAndObjectivesNotChecked(f: Fields)
    requires Validate(f).None?
    ensures HandleSubmit(f["sessionTopic" := ""]["sessionObjectives" := ""], Failed("")).request.Some?
  {
  }

  /** After a successful submit the form is blank, so pressing submit again
      straight away is refused by the required-field check and sends nothing. */
  lemma ResubmitAfterSuccessRefused(f: Fields, outcome: FetchOutcome, again: FetchOutcome)
    requires HandleSubmit(f, outcome).completed
    ensures var g := HandleSubmit(f, outcome).state;
      && (forall n :: n in g ==> g[n] == "")
      && HandleSubmit(g, again) == Submission(g, None, false, Failure(RequiredMessage))
  {
    var g := HandleSubmit(f, outcome).state;
    assert Blank(g, Required[0]);
  }

  /** Answering "no" to a planned next session hides the date input but keeps
      the date already entered, and the date is still sent. */
  lemma NextSessionDateKept(f: Fields, answer: string)
    ensures var g := SetField(f, "nextSessionPlanned", answer);
      && Field(g, "nextSessionDate") == Field(f, "nextSessionDate")
      && ("nextSessionDate" in f ==> FieldsBody(g).fields["nextSessionDate"] == JStr(f["nextSessionDate"]))
  {
  }
}
