# Mentor-mentee portal, modelled in Dafny

The Mentor-mentee Platform is a small web portal for a college mentoring
scheme. Mentees fill in three forms:
- interaction, about a meeting with their mentor;
- attendance, about a session;
- academic, about their background and results.

The portal's server function checks each submission and stores it in a
key-value store. It writes a history entry under `kind:prn:timestamp`. It
also writes a "latest" pointer `latest_kind:prn` for interactions and
academic details. Mentors sign in, and the server then serves them:
- a merged list of mentees, one row per PRN (the student's registration
  number), flagged with which forms arrived;
- a per-mentee detail view.

This project models the portal's core as pure functions over immutable
data, and proves properties of that model.

- **Server** (`server.dfy`, `mentee_merge.dfy`, `kv_store.dfy`):
  - the three submit handlers, with their 400/500 paths and key discipline;
  - the bearer-token parse of `authenticateUser`;
  - `/mentor/dashboard`;
  - `/mentor/mentees`, whose `Map` fold has a reference description, proved
    equal to it;
  - `/mentor/mentee/:prn`, with its prefix scans.
- **Mentor dashboard** (`mentor_dashboard.dfy`, `sequences.dfy`): the search
  filter, the four counters, and the two fetches.
- **Mentee forms** (`form_submit.dfy`, `interaction_form.dfy`,
  `attendance_form.dfy`, `academic_form.dfy`, `html_pattern.dfy`):
  - required-field validation, input/nested/topic updates, and reset;
  - the submit handler's success and error paths;
  - the HTML `pattern` attributes;
  - a proof that every form passing the page's own check is accepted by the
    server.
- **Auth page and app shell** (`auth_page.dfy`, `app.dfy`,
  `mentee_dashboard.dfy`):
  - sign-up checks and the sign-up and login bodies;
  - the screen state machine and its `localStorage` session;
  - the mentee page's list of completed forms.

JavaScript semantics are written out where the code relies on them
(`js_values.dfy`, `js_strings.dfy`, `js_map.dfy`):
- truthiness;
- `undefined` for a missing property;
- object spread as a right-biased map union;
- the insertion order of an ECMAScript `Map`;
- template-literal conversion to a string;
- `split(' ')`;
- ASCII `toLowerCase`;
- `includes`;
- `length` in UTF-16 code units.

Inputs the code cannot see become parameters:
- the store's enumeration order for `getByPrefix` (`order`);
- `Date.now()` (`now`) and the two `toISOString()` stamps;
- the identity provider (`sessions`, from token to user id);
- the outcome of each `fetch` (`FetchOutcome`);
- `JSON.parse` and `JSON.stringify` of the app shell (`parse`,
  `stringify`).

The model keeps these behaviours of the code as written:
- A detail request for a PRN with no academic record gets a reply without
  an `academic` property. This assumes that `kv.get` of a missing key yields
  `undefined`, which `JSON` drops; the store's code is not part of this
  model (see "Left out").
- The detail scan `interaction:<prn>:` also returns the history of every
  PRN that extends `<prn>` with a colon (`Server.DetailPrefixLeak`). The
  server never rejects colons. PRNs that satisfy the forms' pattern have no
  colon (`HtmlPattern.PrnPatternExcludesColon`), and for those the scans are
  exact (`Server.DetailPrefixIsolation`).
- The password length check counts UTF-16 code units, so three characters
  outside the Basic Multilingual Plane pass the six-character minimum.
- The attendance page marks the session topic and objectives as required,
  but the script does not check them.

## Model

| member | source | states |
|---|---|---|
| `Server.Submit` | src/supabase/functions/server/index.tsx:125-218 | 500 exactly when the body is not JSON, is `null`, or has a truthy `prn` and `name` but a `prn` the key's template literal cannot convert to a string (an object, or an array holding one, with its own `toString` property). 400 exactly when it is not an object with a truthy `prn` and `name`. 200 otherwise. The store changes only on 200: the history key holds the tagged record, interaction and academic kinds also write the latest pointer, and every other key keeps its value. The reply `id` is the history key. |
| `Server.OwnToStringPrnRejected` | src/supabase/functions/server/index.tsx:129-133 | The body `{"prn":{"toString":0},"name":"x"}` passes the 400 check, is answered 500, and leaves the store unchanged. |
| `Server.TaggedFields` | src/supabase/functions/server/index.tsx:135-139 | A stored record has the body's keys plus `type` and `submitted_at`. The server's stamp always wins. A client-sent `type` overrides the tag. Other fields are the body's. |
| `Server.HistoryKeyIsNotLatestKey` | src/supabase/functions/server/index.tsx:133-146 | A history key never equals a latest-pointer key, for any kinds and PRNs. |
| `Server.HistoryKeyInjective` | src/supabase/functions/server/index.tsx:133 | Equal history keys of one kind come from the same PRN text and the same timestamp. |
| `Server.SplitAtLastSeparator` | src/supabase/functions/server/index.tsx:133 | Splitting at the last separator recovers both halves, which is what makes the timestamp part of a key unambiguous. |
| `Server.SubmitTwice` | src/supabase/functions/server/index.tsx:133-146 | Two stored submissions for one PRN at different times keep both history entries. The latest pointer holds the second. |
| `Server.BearerToken` | src/supabase/functions/server/index.tsx:222 | A token is never empty and never holds a space. A missing header or one without a space gives no token. |
| `Server.BearerTokenFields` | src/supabase/functions/server/index.tsx:222-226 | For a header made of a space-free first field, a space, a space-free second field and then nothing or a space followed by anything, the token is the second field. It is missing when that field is empty. |
| `Server.BearerTokenHasShape` | src/supabase/functions/server/index.tsx:222 | Every header containing a space has that shape, so `BearerTokenFields` fixes the token of every such header. |
| `Server.BearerTokenRoundTrip` | src/supabase/functions/server/index.tsx:222 | The header `Bearer <token>` that the pages send yields `<token>` back. |
| `Server.Authenticate` | src/supabase/functions/server/index.tsx:221-236 | Rejected with 401 exactly when there is no token or the identity provider does not know it. "Authorization token required" is the answer when there is no token, and "Unauthorized" when the provider does not know the token. Otherwise the user is the provider's. |
| `Server.MissingTokenRejected` | src/supabase/functions/server/index.tsx:221-226 | Without a usable token, all three mentor routes answer 401 whatever the store holds. |
| `Server.Dashboard` | src/supabase/functions/server/index.tsx:238-261 | An authorised reply carries the mentor's own record when one is stored. It also carries the unmerged scans of the latest interactions, the latest academic records and every attendance entry. |
| `Server.ListMentees` | src/supabase/functions/server/index.tsx:263-300 | An authorised reply's `mentees` is the merge of the latest interaction and latest academic records. |
| `Server.MenteeDetail` | src/supabase/functions/server/index.tsx:302-322 | An authorised reply carries the PRN, its interaction and attendance history by prefix scan, and its latest academic record when there is one. |
| `Server.DetailPrefixIsolation` | src/supabase/functions/server/index.tsx:307-308 | For colon-free PRNs, the detail scan for `p` picks up a history key of `q` exactly when `p == q`. |
| `Server.DetailPrefixLeak` | src/supabase/functions/server/index.tsx:307-308 | The history of PRN `p:rest` matches the detail scan for `p`. |
| `Server.SubmitAcademicThenDetail` | src/supabase/functions/server/index.tsx:302-322 | After an accepted academic submission, an authorised detail request for that PRN reports it under `academic`. |
| `KvStore.ScanPrefixComplete` | src/supabase/functions/server/index.tsx:244-246 | When the order enumerates the store, a prefix scan returns exactly the records whose keys start with the prefix. |
| `MenteeMerge.MergeMentees` | src/supabase/functions/server/index.tsx:269-292 | The fold leaves a well-formed ordered map: distinct keys, each with an entry. The rows are its values in key order. |
| `MenteeMerge.AddAllValid` | src/supabase/functions/server/index.tsx:272-290 | Each `forEach` keeps the map well formed. |
| `MenteeMerge.AddAllKeys` | src/supabase/functions/server/index.tsx:272-290 | Each `forEach` appends the record PRNs it has not seen, in order of first appearance. |
| `MenteeMerge.AddAllEntry` | src/supabase/functions/server/index.tsx:272-290 | After a `forEach`, a PRN's entry is its old entry overlaid with that PRN's records and the loop's flag. Other entries are unchanged. |
| `MenteeMerge.MergeMenteesSpec` | src/supabase/functions/server/index.tsx:269-292 | There is one row per distinct truthy PRN, in order of first appearance, interactions before academics. Each row equals the reference summary of that PRN's records. |
| `MenteeMerge.FirstOccurrencesSpec` | src/supabase/functions/server/index.tsx:269-292 | The row keys are distinct, are exactly the PRNs present, and are ordered by each PRN's first index. |
| `MenteeMerge.InteractionRowsFirst` | src/supabase/functions/server/index.tsx:272-290 | Interaction PRNs come first, in their own order. Then come the PRNs seen only in academic records. |
| `MenteeMerge.PrnsSpec` | src/supabase/functions/server/index.tsx:273-283 | A PRN has a row exactly when some record carries it as a truthy `prn`. |
| `MenteeMerge.RecordWithoutPrnIgnored` | src/supabase/functions/server/index.tsx:273-283 | A record without a truthy `prn` changes nothing. |
| `MenteeMerge.OverlayKeys` | src/supabase/functions/server/index.tsx:274-287 | A spread of several records has exactly the keys found in any of them. |
| `MenteeMerge.SummaryPrn` | src/supabase/functions/server/index.tsx:274-287 | Every row's `prn` is its own key. |
| `MenteeMerge.AcademicWins` | src/supabase/functions/server/index.tsx:284-288 | On a shared property, the latest academic record's value wins over interaction records. |
| `MenteeMerge.InteractionOnlyFlags` | src/supabase/functions/server/index.tsx:272-280 | A PRN with interaction records only has `hasInteraction: true`. It has `hasAcademic` only if a record brought one. |
| `MenteeMerge.AcademicOnlyFlags` | src/supabase/functions/server/index.tsx:282-290 | A PRN with academic records only has `hasAcademic: true`. It has `hasInteraction` only if a record brought one. |
| `MenteeMerge.BothFlags` | src/supabase/functions/server/index.tsx:272-290 | A PRN with records of both kinds carries both flags, unless an academic record overrides `hasInteraction`. |
| `JsValues.NatToDecimal` | src/supabase/functions/server/index.tsx:133 | `${Date.now()}` is a non-empty string of decimal digits. It has one digit exactly below ten. |
| `JsValues.NatToDecimalInjective` | src/supabase/functions/server/index.tsx:133 | Distinct timestamps print differently. |
| `JsStrings.Split` | src/supabase/functions/server/index.tsx:222 | `split` returns at least one part. No part contains the separator. Joining the parts gives back the input. |
| `JsStrings.SplitJoin` | src/supabase/functions/server/index.tsx:222 | Splitting a join of separator-free parts returns those parts. |
| `JsStrings.Includes` | src/components/MentorDashboard.tsx:86-90 | `includes` is true exactly when the term occurs at some position. |
| `JsStrings.ToLower` | src/components/MentorDashboard.tsx:86-90 | Lowering keeps the length and lowers each ASCII capital. |
| `JsStrings.Utf16Length` | src/components/AuthPage.tsx:66-69 | `length` lies between the number of characters and twice that. |
| `JsStrings.Utf16LengthBmp` | src/components/AuthPage.tsx:66-69 | For text inside the Basic Multilingual Plane, `length` is the number of characters. |
| `Sequences.FilterPositions` | src/components/MentorDashboard.tsx:86-90 | `filter` keeps exactly the passing elements, in their original order. |
| `Sequences.FilterMembers` | src/components/MentorDashboard.tsx:86-90 | An element is in the result exactly when it is in the input and passes. |
| `Sequences.FilterComplement` | src/components/MentorDashboard.tsx:92-97 | Filtering by a predicate and by its negation splits the count. |
| `Sequences.FilterCount` | src/components/MentorDashboard.tsx:92-97 | `filter(keep).length` is the number of positions whose element passes. |
| `Sequences.FilterMonotone` | src/components/MentorDashboard.tsx:92-97 | A weaker predicate keeps at least as many elements. |
| `MentorDashboard.DecodeMentee` | src/components/MentorDashboard.tsx:86-97 | An object row's `prn`, `name` and `batch` are its string-valued properties of those names, and its flags are the truthiness of `hasInteraction` and `hasAcademic`. A non-object row has nothing. |
| `MentorDashboard.FilteredMentees` | src/components/MentorDashboard.tsx:86-90 | The list never grows, and every listed mentee matches the search. |
| `MentorDashboard.FilteredMenteesSpec` | src/components/MentorDashboard.tsx:86-90 | A mentee is listed exactly when it is in the list and its name, PRN or batch contains the term, ignoring ASCII case. Listed mentees keep their order. |
| `MentorDashboard.EmptySearchKeepsDefined` | src/components/MentorDashboard.tsx:86-90 | An empty search lists exactly the mentees with a name, a PRN or a batch. |
| `MentorDashboard.SearchIgnoresTermCase` | src/components/MentorDashboard.tsx:86-90 | Lower-casing the search term changes nothing. |
| `MentorDashboard.ComputeStats` | src/components/MentorDashboard.tsx:92-97 | The total is the list length. Each flag counter is the number of positions whose mentee has that flag, so it never exceeds the total. Pending is the number of positions whose mentee lacks either flag, which is the total minus the mentees with both forms. |
| `MentorDashboard.StatsPendingBounds` | src/components/MentorDashboard.tsx:92-97 | Pending is at least the shortfall of either flag counter. |
| `MentorDashboard.MenteesOf` | src/components/MentorDashboard.tsx:55 | A reply without a truthy `mentees` gives the empty list. An array gives one mentee per element, read from that element in order. |
| `MentorDashboard.FetchMentees` | src/components/MentorDashboard.tsx:40-62 | An ok object reply replaces the list with the mentees read from the array's elements, one per element and in order, or with the empty list when `mentees` is missing. A failure, a non-ok reply or a `null` body leaves the page unchanged. |
| `MentorDashboard.FetchShowsMergedRows` | src/components/MentorDashboard.tsx:40-62 | Fetching an authorised `/mentor/mentees` reply lists one mentee per merged row of the server, in the server's order, each read from its row. |
| `MentorDashboard.FetchMenteeDetails` | src/components/MentorDashboard.tsx:64-84 | An ok reply is selected and opens the details tab. Anything else changes nothing. The list is never touched. |
| `Fetch.ErrorText` | src/components/forms/InteractionForm.tsx:102 | The thrown message is the reply's truthy `error` property as a string when there is one and it converts, else the handler's fallback. A `null` body, or an `error` whose conversion throws, yields the engine's `TypeError` instead. |
| `Fetch.OwnToStringErrorThrows` | src/components/forms/InteractionForm.tsx:101-103 | A reply whose `error` is an object with its own `toString` yields the `TypeError` message, not "[object Object]". |
| `FormSubmit.EmptyFields` | src/components/forms/AttendanceForm.tsx:20-41 | The blank form has exactly the listed fields, all empty. |
| `FormSubmit.SetField` | src/components/forms/AttendanceForm.tsx:43-48 | An input change sets one field and keeps every other field. |
| `FormSubmit.CheckRequired` | src/components/forms/AttendanceForm.tsx:56-61 | The required-field check passes exactly when no required field is blank. Otherwise it throws "All required fields must be filled". |
| `FormSubmit.FieldsBody` | src/components/forms/AttendanceForm.tsx:69 | The request body has exactly the form's fields, each as a string. |
| `FormSubmit.RequiredFieldsSent` | src/components/forms/AttendanceForm.tsx:56-69 | Every required field of a form that passed the required-field check reaches the server as a truthy string. |
| `FormSubmit.SubmitForm` | src/components/forms/AttendanceForm.tsx:50-111 | A request is sent exactly when the required-field check passes. `onComplete` runs and the form resets exactly on an ok reply. Every other outcome keeps the form and shows the thrown message: the validation message, the reply's `error` or fallback, or the request's own. |
| `AttendanceForm.Validate` | src/components/forms/AttendanceForm.tsx:56-61 | The attendance check passes exactly when its twelve required fields are filled. |
| `AttendanceForm.HandleSubmit` | src/components/forms/AttendanceForm.tsx:50-111 | The attendance submit sends the form exactly when it is valid. It resets to the blank form and shows "Attendance submitted successfully!" on an ok reply, and falls back to "Failed to submit attendance". |
| `AttendanceForm.ValidFormAccepted` | src/components/forms/AttendanceForm.tsx:56-70 | A form that passes the required-field check is answered 200 by the server's attendance handler, and its history key holds the form's tagged record. |
| `AttendanceForm.TopicAndObjectivesNotChecked` | src/components/forms/AttendanceForm.tsx:308-328 | The session topic and objectives may be blank and the form is still sent. |
| `AttendanceForm.ResubmitAfterSuccessRefused` | src/components/forms/AttendanceForm.tsx:82-103 | After a success every field is blank, and an immediate resubmit sends nothing. |
| `AttendanceForm.NextSessionDateKept` | src/components/forms/AttendanceForm.tsx:440-462 | Answering the planned-session question keeps the date already entered, and the date is still sent. |
| `AcademicForm.Validate` | src/components/forms/AcademicForm.tsx:82-87 | The academic check passes exactly when its twelve required fields are filled. |
| `AcademicForm.HandleSubmit` | src/components/forms/AcademicForm.tsx:76-151 | The academic submit sends the form exactly when it is valid. It resets on an ok reply with "Academic details submitted successfully!", and falls back to "Failed to submit academic form". |
| `AcademicForm.ValidFormAccepted` | src/components/forms/AcademicForm.tsx:82-96 | A form that passes the required-field check is answered 200. Its history key and the PRN's latest academic key both hold the form's fields, tagged with the kind and the two stamps. |
| `AcademicForm.ResetClearsEveryField` | src/components/forms/AcademicForm.tsx:108-143 | After a success the form has exactly its 34 fields, all blank, and an immediate resubmit sends nothing. |
| `AcademicForm.OptionalFieldIgnored` | src/components/forms/AcademicForm.tsx:82-87 | Editing a field outside the required list never changes the verdict. |
| `InteractionForm.Validate` | src/components/forms/InteractionForm.tsx:78-90 | Validation passes exactly when the twelve required fields and the two required feedback ratings are filled and a topic is checked. A blank field yields the required-fields message before the topics message. |
| `InteractionForm.HandleInputChange` | src/components/forms/InteractionForm.tsx:46-51 | An input change sets one text field and nothing else. |
| `InteractionForm.HandleFeedbackChange` | src/components/forms/InteractionForm.tsx:53-61 | A nested change sets one feedback rating and nothing else. |
| `InteractionForm.HandleTopicsChange` | src/components/forms/InteractionForm.tsx:63-70 | Checking appends the topic. Unchecking removes every copy of it. Other parts of the form are untouched. |
| `InteractionForm.UncheckKeepsOthers` | src/components/forms/InteractionForm.tsx:63-70 | Unchecking keeps every other topic, in order. |
| `InteractionForm.CheckThenUncheck` | src/components/forms/InteractionForm.tsx:63-70 | Checking a topic that was not checked and then unchecking it restores the form. |
| `InteractionForm.Body` | src/components/forms/InteractionForm.tsx:96 | The request body holds the text fields, the topics array and the feedback object. |
| `InteractionForm.HandleSubmit` | src/components/forms/InteractionForm.tsx:72-140 | The form is sent exactly when both checks pass. It resets on an ok reply with "Interaction form submitted successfully!", and falls back to "Failed to submit form". |
| `InteractionForm.ValidFormAccepted` | src/components/forms/InteractionForm.tsx:78-96 | A form that passes both checks is answered 200. Its history key and the PRN's latest interaction key both hold the form's body, tagged with the kind and the two stamps. |
| `InteractionForm.ResubmitAfterSuccessRefused` | src/components/forms/InteractionForm.tsx:109-132 | After a success nothing is checked and every field is blank, and an immediate resubmit sends nothing. |
| `HtmlPattern.TryCountsSpec` | src/components/forms/InteractionForm.tsx:173 | A bounded repeat matches when some allowed count of leading characters is in its class and the rest of the pattern matches the remainder. |
| `HtmlPattern.OnePieceMatch` | src/components/forms/InteractionForm.tsx:173 | A one-class pattern matches exactly the strings of allowed length drawn from the class. |
| `HtmlPattern.PrnPatternSpec` | src/components/forms/InteractionForm.tsx:173 | A PRN matches exactly when it has 10 to 12 characters, each a digit or an ASCII capital. |
| `HtmlPattern.PrnPatternExcludesColon` | src/components/forms/AcademicForm.tsx:175 | A PRN that matches its pattern contains no colon. |
| `HtmlPattern.DigitsDashDigitsMatch` | src/components/forms/InteractionForm.tsx:196 | `[0-9]{a}-[0-9]{b}` matches exactly `a` digits, a hyphen, then `b` digits. |
| `HtmlPattern.BatchPatternSpec` | src/components/forms/AcademicForm.tsx:198 | A batch matches exactly when it is four digits, a hyphen and four digits. |
| `HtmlPattern.AcademicYearPatternSpec` | src/components/forms/AcademicForm.tsx:239 | An academic year matches exactly when it is four digits, a hyphen and two digits. |
| `HtmlPattern.ContactPatternSpec` | src/components/forms/AcademicForm.tsx:460 | A contact number matches exactly when it has 10 to 15 characters, each a digit, `+`, `-` or ECMAScript white space. |
| `AuthPage.CheckSignup` | src/components/AuthPage.tsx:61-69 | A mismatch is reported first. Then a password shorter than six UTF-16 code units is reported. Otherwise the sign-up proceeds. |
| `AuthPage.SignupBody` | src/components/AuthPage.tsx:80-86 | The sign-up body has exactly e-mail, password, name, department and contact. The confirmation is not sent. |
| `AuthPage.HandleSignup` | src/components/AuthPage.tsx:58-113 | A request is sent exactly when the password checks pass. On an ok reply the sign-up tab is cleared and the login tab holds the new e-mail with an empty password. Anything else keeps both tabs and shows the error. |
| `AuthPage.ShortPasswordOfAstralCharsAccepted` | src/components/AuthPage.tsx:66-69 | Three characters outside the Basic Multilingual Plane pass the six-character minimum. |
| `AuthPage.LoginBody` | src/components/AuthPage.tsx:39 | The login body has exactly e-mail and password. |
| `AuthPage.Property` | src/components/AuthPage.tsx:49 | A property of the reply is defined exactly when the reply is an object that has it. |
| `AuthPage.HandleLogin` | src/components/AuthPage.tsx:28-56 | `onLogin` gets the reply's `user` and `access_token` exactly on an ok non-null reply. Otherwise the request's error or the reply's `error` (fallback "Login failed") is shown, and an ok `null` reply ends in the engine's `TypeError`. |
| `AuthPage.SignupPrimesLogin` | src/components/AuthPage.tsx:98-106 | After a sign-up, logging in from the primed tab sends the new account's e-mail. |
| `App.Initial` | src/App.tsx:21-23 | The app starts on the landing screen, with a `null` user and an empty token, over the browser's storage. |
| `App.Restore` | src/App.tsx:26-41 | With both keys saved and the user text parseable, the dashboard opens with the saved user and token. With unparseable text, both keys are removed and nothing else changes. Otherwise nothing changes. Other storage keys are never touched. |
| `App.NavigationKeepsSession` | src/App.tsx:43-73 | The landing buttons and the back button change only the screen. The session is kept in memory and in storage. |
| `App.HandleMentorLogin` | src/App.tsx:51-59 | Login opens the dashboard screen and saves the user (as JSON text) and the token (as text). A token whose conversion to text throws leaves the token key as it was, after the user key is saved. Other storage keys are untouched. |
| `App.HandleLogout` | src/App.tsx:61-69 | Logout returns to the landing screen with a `null` user and an empty token, and removes both keys. |
| `App.LoginSurvivesReload` | src/App.tsx:26-59 | With a serialiser that `JSON.parse` inverts, a reload after login shows the same user and token. |
| `App.LogoutSurvivesReload` | src/App.tsx:26-69 | A reload after logout stays on the landing screen. |
| `App.RestoreIdempotent` | src/App.tsx:26-41 | Restoring twice is restoring once. |
| `App.LoginWithoutUser` | src/App.tsx:51-59 | A login reply without `user` shows a blank dashboard screen, and the next reload drops the session. |
| `App.LoginReplyShowsDashboard` | src/App.tsx:96 | An ok login reply with an object `user` and a non-empty token renders the dashboard. |
| `MenteeDashboard.HandleFormComplete` | src/components/MenteeDashboard.tsx:20-24 | A completed form is recorded once, after those already recorded. The list stays free of repeats. |
| `MenteeDashboard.HandleFormCompleteIdempotent` | src/components/MenteeDashboard.tsx:20-24 | Recording a form twice is recording it once. |
| `MenteeDashboard.AfterSubmit` | src/components/MenteeDashboard.tsx:122-144 | A form is listed after a submit exactly when it was listed before or the submit succeeded. |
| `MenteeDashboard.CompleteAllSpec` | src/components/MenteeDashboard.tsx:20-24 | After any series of completions, each form is listed once. The list holds the earlier ones and the newly completed ones, and keeps its earlier prefix. |
| `MenteeDashboard.AllFormsCompleted` | src/components/MenteeDashboard.tsx:17-24 | Completing the three forms in any order, with repeats, lists exactly the three. |

## Left out

- The JSX rendering, styling, icons, toasts of the dashboard fetches, and the loading flags: these are presentation only.
- The `fetch` transport, headers and URLs: each request's outcome is a `FetchOutcome` parameter.
- The sign-up and sign-in server routes, the `supabase.auth` calls and the mentor's profile record: they call the identity provider, whose code is not part of this model. Token validation is the `sessions` parameter.
- The key-value store's implementation: `kv_store.tsx` is not part of this model. `kv.set`, `kv.get` and `kv.getByPrefix` are modelled as map update, lookup and an ordered scan.
- `KvStore.Lookup`: `kv.get` of a missing key is assumed to yield `undefined` (`None`), not `null`. This decides that the detail reply leaves out `academic` rather than sending `"academic": null`, and it cannot be confirmed without the store's code.
- Storage and network exceptions inside the handlers: only the parse failure, a `null` body and a `prn` that cannot be converted to a string lead to the 500 path in the model.
- CORS, the request logger and `/health`: they do not affect the data.
- Concurrency: handlers and page events are modelled as one step at a time.
- JSON numbers are integers in the model: floating point, `NaN` and exponent formatting are not modelled.
- The order of an object's own keys: records are maps.
- Object-valued PRNs, which an ECMAScript `Map` compares by reference: the model compares `Json` values structurally, which agrees for strings, numbers and booleans.
- `InteractionForm.HandleInputChange`: requires the field not to be `discussionTopics` or `facultyFeedback`, since the page only passes text fields and values. The same goes for `handleNestedChange`, which the page calls only with the parent `facultyFeedback`; the spread of a non-object parent is not modelled.
- `MentorDashboard.MenteesOf`: a truthy `mentees` that is not an array (which makes the page's `filter` throw) is read as the empty list. A `name`, `prn` or `batch` that is a number, boolean, array or object (which makes `toLowerCase` throw) is read as missing; a `null` one is skipped by `?.`, exactly as the model reads it. A `null` element of `mentees` (which makes the search and the counters throw) is read as a mentee with no fields and no flags.
- `Fetch.ErrorText`: a `null` body or an `error` whose conversion throws raises a `TypeError` whose wording the JavaScript engine chooses. The model names that message `TypeErrorMessage` and does not give its text.
- `AuthPage.HandleLogin`: an ok reply with a `null` body shows the success toast and then the engine's `TypeError` message. The model keeps only the last toast, `TypeErrorMessage`. When `onLogin` itself throws (a token `App.HandleMentorLogin` cannot store), the page also shows the engine's error toast after the success toast. The model keeps the success toast.
- The browser's constraint validation (`required`, `minLength`, `min`/`max`, `type="email"`): the model states each `pattern` attribute's meaning (`HtmlPattern`) but not the browser's decision to block a submit.
- Unicode case mapping: `toLowerCase` is modelled for ASCII letters only.
