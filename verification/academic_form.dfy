/** The academic-details form: thirty-four text fields, twelve of which the
    submit handler insists on. */
module AcademicForm {
  import opened JsValues
  import opened Fetch
  import opened FormSubmit
  import Server
  import KvStore

  /** The keys of `formData`, in declaration order. */
  const FieldNames: seq<string> := [
    "prn", "name", "batch", "department", "currentSemester", "academicYear",
    "twelfthBoard", "twelfthPercentage", "twelfthPassingYear",
    "entranceExam", "entranceScore", "entranceRank",
    "previousSemesterGPA", "currentSemesterCGPA", "backlogs", "backlogSubjects",
    "hobbies", "interests", "skills", "strengths", "weaknesses",
    "fatherOccupation", "motherOccupation", "familyIncome",
    "personalEmail", "contactNumber", "alternateContact", "permanentAddress", "currentAddress",
    "extracurricularActivities", "achievements", "futureGoals", "specialNeeds", "medicalHistory"]

  /** The fields the submit handler checks. */
  const Required: seq<string> := [
    "prn", "name", "batch", "department", "currentSemester", "academicYear",
    "twelfthBoard", "twelfthPercentage", "twelfthPassingYear", "entranceExam",
    "personalEmail", "contactNumber"]

  /** The initial form, which is also what a successful submit resets to. */
  const Initial: Fields := EmptyFields(FieldNames)

  const SuccessText := "Academic details submitted successfully!"
  const FallbackText := "Failed to submit academic form"

  /** The submit handler's required-field check. */
  function Validate(f: Fields): (e: Option<string>)
    ensures e.None? <==> forall n :: n in Required ==> !Blank(f, n)
    ensures e.Some? ==> e.value == RequiredMessage
  {
    CheckRequired(f, Required)
  }

  /** `handleSubmit`. */
  function HandleSubmit(f: Fields, outcome: FetchOutcome): (r: Submission<Fields>)
    ensures r.request.Some? <==> forall n :: n in Required ==> !Blank(f, n)
    ensures r.request.Some? ==> r.request.value == FieldsBody(f)
    ensures r.completed <==> r.request.Some? && outcome.Answered? && outcome.ok
    ensures r.completed ==> r.state == Initial && r.toast == Success(SuccessText)
    ensures !r.completed ==> r.state == f && r.toast.Failure?
    ensures r.request.None? ==> r.toast == Failure(RequiredMessage)
    ensures r.request.Some? && outcome.Answered? && !outcome.ok ==>
      r.toast == Failure(ErrorText(outcome.data, FallbackText))
  {
    SubmitForm(f, Initial, Validate(f), FieldsBody(f), outcome, SuccessText, FallbackText)
  }

  /** A form that passes the required-field check is never refused by the server: the
      handler stores it, records it as the latest academic record, and
      answers 200. */
  lemma ValidFormAccepted(f: Fields, store: KvStore.Store, now: nat, stamp1: string, stamp2: string)
    requires Validate(f).None?
    ensures var h := Server.Submit(Server.Academic, store, Some(FieldsBody(f)), now, stamp1, stamp2);
      && h.reply.status == 200
      && Server.LatestKey(Server.Academic, JStr(f["prn"])) in h.store
      && h.store[Server.LatestKey(Server.Academic, JStr(f["prn"]))] == Server.Tagged(Server.Academic, FieldsBody(f).fields, stamp2)
      && h.store[Server.HistoryKey(Server.Academic, JStr(f["prn"]), now)] == Server.Tagged(Server.Academic, FieldsBody(f).fields, stamp1)
  {
    RequiredFieldsSent(f, Required, "prn");
    RequiredFieldsSent(f, Required, "name");
  }

  /** A successful submit leaves every one of the form's fields present and
      blank, and nothing else; the next submit is refused by the required-field check. */
  lemma ResetClearsEveryField(f: Fields, outcome: FetchOutcome, again: FetchOutcome)
    requires HandleSubmit(f, outcome).completed
    ensures var g := HandleSubmit(f, outcome).state;
      && g.Keys == set n | n in FieldNames
      && (forall n :: n in g ==> g[n] == "")
      && HandleSubmit(g, again) == Submission(g, None, false, Failure(RequiredMessage))
  {
    var g := HandleSubmit(f, outcome).state;
    assert Blank(g, Required[0]);
  }

  /** Editing a field the required-field check ignores never changes its verdict. */
  lemma OptionalFieldIgnored(f: Fields, name: string, value: string)
    requires name !in Required
    ensures Validate(SetField(f, name, value)) == Validate(f)
  {
    var g := SetField(f, name, value);
    assert forall n :: n in Required ==> Field(g, n) == Field(f, n);
  }
}
