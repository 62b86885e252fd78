/** The mentor-interaction form: text fields, a list of checked discussion
    topics, and a nested object of faculty-feedback ratings. */
module InteractionForm {
  import opened JsValues
  import opened Fetch
  import opened Sequences
  import opened FormSubmit
  import Server
  import KvStore

  /** `formData`: the text fields, `discussionTopics` and `facultyFeedback`. */
  datatype InteractionData = InteractionData(fields: Fields, discussionTopics: seq<string>, facultyFeedback: Fields)

  /** The text fields of `formData`, in declaration order. */
  const FieldNames: seq<string> := [
    "prn", "name", "batch", "semester", "academicYear", "mentorName",
    "meetingDate", "meetingType", "difficulties", "suggestions",
    "personalChallenges", "careerGoals", "extracurriculars", "overallRating",
    "additionalComments"]

  const FeedbackNames: seq<string> := ["teachingQuality", "courseContent", "communication", "availability"]

  /** The text fields the submit handler checks. */
  const Required: seq<string> := [
    "prn", "name", "batch", "semester", "academicYear", "mentorName",
    "meetingDate", "meetingType", "difficulties", "suggestions", "careerGoals",
    "overallRating"]

  /** The feedback ratings the submit handler checks. */
  const RequiredFeedback: seq<string> := ["teachingQuality", "courseContent"]

  const Initial := InteractionData(EmptyFields(FieldNames), [], EmptyFields(FeedbackNames))

  const TopicMessage := "Please select at least one discussion topic"
  const SuccessText := "Interaction form submitted successfully!"
  const FallbackText := "Failed to submit form"

  /** Every field the submit handler checks is filled in. */
  predicate RequiredFilled(d: InteractionData) {
    && (forall n :: n in Required ==> !Blank(d.fields, n))
    && (forall n :: n in RequiredFeedback ==> !Blank(d.facultyFeedback, n))
  }

  /** The two checks of the submit handler, in order. */
  function Validate(d: InteractionData): (e: Option<string>)
    ensures e.None? <==> RequiredFilled(d) && |d.discussionTopics| > 0
    ensures !RequiredFilled(d) ==> e == Some(RequiredMessage)
    ensures RequiredFilled(d) && d.discussionTopics == [] ==> e == Some(TopicMessage)
  {
    if CheckRequired(d.fields, Required).Some? || CheckRequired(d.facultyFeedback, RequiredFeedback).Some? then
      Some(RequiredMessage)
    else if |d.discussionTopics| == 0 then Some(TopicMessage)
    else None
  }

  /** `handleInputChange` on a text field. */
  function HandleInputChange(d: InteractionData, field: string, value: string): (e: InteractionData)
    requires field != "discussionTopics" && field != "facultyFeedback"
    ensures e.discussionTopics == d.discussionTopics && e.facultyFeedback == d.facultyFeedback
    ensures Field(e.fields, field) == value
    ensures forall n :: n != field ==> Field(e.fields, n) == Field(d.fields, n)
  {
    d.(fields := SetField(d.fields, field, value))
  }

  /** `handleNestedChange('facultyFeedback', field, value)`. */
  function HandleFeedbackChange(d: InteractionData, field: string, value: string): (e: InteractionData)
    ensures e.fields == d.fields && e.discussionTopics == d.discussionTopics
    ensures Field(e.facultyFeedback, field) == value
    ensures forall n :: n != field ==> Field(e.facultyFeedback, n) == Field(d.facultyFeedback, n)
  {
    d.(facultyFeedback := SetField(d.facultyFeedback, field, value))
  }

  predicate IsNot(topic: string, t: string) {
    t != topic
  }

  /** `handleTopicsChange`: checking appends the topic, unchecking removes
      every copy of it. */
  function HandleTopicsChange(d: InteractionData, topic: string, checked: bool): (e: InteractionData)
    ensures e.fields == d.fields && e.facultyFeedback == d.facultyFeedback
    ensures checked ==> e.discussionTopics == d.discussionTopics + [topic]
    ensures !checked ==> topic !in e.discussionTopics && |e.discussionTopics| <= |d.discussionTopics|
  {
    if checked then d.(discussionTopics := d.discussionTopics + [topic])
    else
      var kept := Filter(d.discussionTopics, t => IsNot(topic, t));
      assert topic !in kept by {
        forall i | 0 <= i < |kept| ensures kept[i] != topic {
          assert IsNot(topic, kept[i]);
        }
      }
      d.(discussionTopics := kept)
  }

  /** Unchecking keeps every other topic, in its original order. */
  lemma UncheckKeepsOthers(d: InteractionData, topic: string) returns (idx: seq<nat>)
    ensures var ts := HandleTopicsChange(d, topic, false).discussionTopics;
      && (forall t :: t in ts <==> t in d.discussionTopics && t != topic)
      && KeptPositions(d.discussionTopics, t => IsNot(topic, t), ts, idx)
  {
    idx := FilterPositions(d.discussionTopics, t => IsNot(topic, t));
    forall t ensures t in HandleTopicsChange(d, topic, false).discussionTopics <==> t in d.discussionTopics && t != topic {
      FilterMembers(d.discussionTopics, t => IsNot(topic, t), t);
    }
  }

  /** Checking a topic that was not checked and then unchecking it restores
      the form. */
  lemma CheckThenUncheck(d: InteractionData, topic: string)
    requires topic !in d.discussionTopics
    ensures HandleTopicsChange(HandleTopicsChange(d, topic, true), topic, false) == d
  {
    var ts := d.discussionTopics;
    FilterAppend(ts, [topic], t => IsNot(topic, t));
    FilterAll(ts, t => IsNot(topic, t));
    assert Filter([topic], t => IsNot(topic, t)) == [] by {
      assert [topic][..0] == [];
    }
  }

  function TopicsJson(ts: seq<string>): (j: Json)
    ensures j.JArr? && |j.items| == |ts|
    ensures forall i :: 0 <= i < |ts| ==> j.items[i] == JStr(ts[i])
  {
    JArr(seq(|ts|, i requires 0 <= i < |ts| => JStr(ts[i])))
  }

  /** `JSON.stringify(formData)`. */
  function Body(d: InteractionData): (body: Json)
    ensures body.JObj?
    ensures body.fields.Keys == d.fields.Keys + {"discussionTopics", "facultyFeedback"}
    ensures forall n :: n in d.fields && n != "discussionTopics" && n != "facultyFeedback" ==>
      body.fields[n] == JStr(d.fields[n])
    ensures body.fields["discussionTopics"] == TopicsJson(d.discussionTopics)
    ensures body.fields["facultyFeedback"] == FieldsBody(d.facultyFeedback)
  {
    JObj(StringsToJson(d.fields)
         + map["discussionTopics" := TopicsJson(d.discussionTopics),
               "facultyFeedback" := FieldsBody(d.facultyFeedback)])
  }

  /** `handleSubmit`. */
  function HandleSubmit(d: InteractionData, outcome: FetchOutcome): (r: Submission<InteractionData>)
    ensures r.request.Some? <==> RequiredFilled(d) && |d.discussionTopics| > 0
    ensures r.request.Some? ==> r.request.value == Body(d)
    ensures r.completed <==> r.request.Some? && outcome.Answered? && outcome.ok
    ensures r.completed ==> r.state == Initial && r.toast == Success(SuccessText)
    ensures !r.completed ==> r.state == d && r.toast.Failure?
    ensures !RequiredFilled(d) ==> r.toast == Failure(RequiredMessage)
    ensures RequiredFilled(d) && d.discussionTopics == [] ==> r.toast == Failure(TopicMessage)
    ensures r.request.Some? && outcome.Answered? && !outcome.ok ==>
      r.toast == Failure(ErrorText(outcome.data, FallbackText))
  {
    SubmitForm(d, Initial, Validate(d), Body(d), outcome, SuccessText, FallbackText)
  }

  /** A form that passes both checks is never refused by the server: the
      handler stores it, records it as the latest interaction, and answers
      200. */
  lemma ValidFormAccepted(d: InteractionData, store: KvStore.Store, now: nat, stamp1: string, stamp2: string)
    requires Validate(d).None?
    ensures var h := Server.Submit(Server.Interaction, store, Some(Body(d)), now, stamp1, stamp2);
      && h.reply.status == 200
      && Server.LatestKey(Server.Interaction, JStr(d.fields["prn"])) in h.store
      && h.store[Server.LatestKey(Server.Interaction, JStr(d.fields["prn"]))] == Server.Tagged(Server.Interaction, Body(d).fields, stamp2)
      && h.store[Server.HistoryKey(Server.Interaction, JStr(d.fields["prn"]), now)] == Server.Tagged(Server.Interaction, Body(d).fields, stamp1)
  {
    RequiredFieldsSent(d.fields, Required, "prn");
    RequiredFieldsSent(d.fields, Required, "name");
  }

  /** After a successful submit no topic is checked and every field is
      blank, so pressing submit again straight away sends nothing. */
  lemma ResubmitAfterSuccessRefused(d: InteractionData, outcome: FetchOutcome, again: FetchOutcome)
    requires HandleSubmit(d, outcome).completed
    ensures var e := HandleSubmit(d, outcome).state;
      && e.discussionTopics == []
      && (forall n :: n in e.fields ==> e.fields[n] == "")
      && (forall n :: n in e.facultyFeedback ==> e.facultyFeedback[n] == "")
      && HandleSubmit(e, again) == Submission(e, None, false, Failure(RequiredMessage))
  {
    var e := HandleSubmit(d, outcome).state;
    assert Blank(e.fields, Required[0]);
  }
}
