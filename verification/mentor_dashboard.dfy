/** The mentor dashboard page: the mentee list it fetches, the search box
    that filters it, the four summary counters, and the detail view. */
module MentorDashboard {
  import opened JsValues
  import opened JsStrings
  import opened Sequences
  import opened Fetch
  import KvStore
  import MenteeMerge
  import Server

  /** A row of the mentee list as the page reads it: string properties that
      may be missing, and the truthiness of the two flags. */
  datatype Mentee = Mentee(
    prn: Option<string>,
    name: Option<string>,
    batch: Option<string>,
    hasInteraction: bool,
    hasAcademic: bool)

  function StringField(r: Record, k: string): (v: Option<string>)
    ensures v.Some? <==> k in r && r[k].JStr?
    ensures v.Some? ==> r[k] == JStr(v.value)
  {
    if k in r && r[k].JStr? then Some(r[k].s) else None
  }

  /** Reads one element of the `mentees` array. */
  function DecodeMentee(row: Json): (m: Mentee)
    ensures row.JObj? ==> m.prn == StringField(row.fields, "prn")
    ensures row.JObj? ==> m.name == StringField(row.fields, "name")
    ensures row.JObj? ==> m.batch == StringField(row.fields, "batch")
    ensures row.JObj? ==> m.hasInteraction == Has(row.fields, "hasInteraction")
    ensures row.JObj? ==> m.hasAcademic == Has(row.fields, "hasAcademic")
    ensures !row.JObj? ==> m == Mentee(None, None, None, false, false)
  {
    if row.JObj? then
      var r := row.fields;
      Mentee(StringField(r, "prn"), StringField(r, "name"), StringField(r, "batch"),
             Has(r, "hasInteraction"), Has(r, "hasAcademic"))
    else Mentee(None, None, None, false, false)
  }

  /** `field?.toLowerCase().includes(term.toLowerCase())`: a missing field
      never matches. */
  predicate FieldMatches(field: Option<string>, term: string) {
    field.Some? && Includes(ToLower(field.value), ToLower(term))
  }

  /** The search predicate: name, PRN or batch contains the term, ignoring
      the case of ASCII letters. */
  predicate MatchesSearch(m: Mentee, term: string) {
    FieldMatches(m.name, term) || FieldMatches(m.prn, term) || FieldMatches(m.batch, term)
  }

  /** `filteredMentees`. */
  function FilteredMentees(mentees: seq<Mentee>, term: string): (r: seq<Mentee>)
    ensures |r| <= |mentees|
    ensures forall i :: 0 <= i < |r| ==> MatchesSearch(r[i], term)
  {
    Filter(mentees, m => MatchesSearch(m, term))
  }

  /** A mentee is listed exactly when it is in the list and matches; the
      listed mentees keep their relative order (`idx` gives their positions). */
  lemma FilteredMenteesSpec(mentees: seq<Mentee>, term: string) returns (idx: seq<nat>)
    ensures forall m :: m in FilteredMentees(mentees, term) <==> m in mentees && MatchesSearch(m, term)
    ensures KeptPositions(mentees, m => MatchesSearch(m, term), FilteredMentees(mentees, term), idx)
  {
    idx := FilterPositions(mentees, m => MatchesSearch(m, term));
    forall m ensures m in FilteredMentees(mentees, term) <==> m in mentees && MatchesSearch(m, term) {
      FilterMembers(mentees, m => MatchesSearch(m, term), m);
    }
  }

  /** With an empty search every mentee that has a name, a PRN or a batch is
      listed, and only those. */
  lemma EmptySearchKeepsDefined(mentees: seq<Mentee>)
    ensures forall m :: m in FilteredMentees(mentees, "") <==>
      m in mentees && (m.name.Some? || m.prn.Some? || m.batch.Some?)
  {
    forall m ensures m in FilteredMentees(mentees, "") <==>
      m in mentees && (m.name.Some? || m.prn.Some? || m.batch.Some?)
    {
      FilterMembers(mentees, m => MatchesSearch(m, ""), m);
      if m.name.Some? { IncludesEmpty(ToLower(m.name.value)); }
      if m.prn.Some? { IncludesEmpty(ToLower(m.prn.value)); }
      if m.batch.Some? { IncludesEmpty(ToLower(m.batch.value)); }
    }
  }

  /** Matching ignores the case of ASCII letters in the search term. */
  lemma SearchIgnoresTermCase(m: Mentee, term: string)
    ensures MatchesSearch(m, ToLower(term)) == MatchesSearch(m, term)
  {
    assert ToLower(ToLower(term)) == ToLower(term);
  }

  datatype Stats = Stats(totalMentees: nat, withInteractions: nat, withAcademic: nat, pendingSubmissions: nat)

  predicate Complete(m: Mentee) {
    m.hasInteraction && m.hasAcademic
  }

  predicate Pending(m: Mentee) {
    !m.hasInteraction || !m.hasAcademic
  }

  predicate WithInteraction(m: Mentee) {
    m.hasInteraction
  }

  predicate WithAcademic(m: Mentee) {
    m.hasAcademic
  }

  /** `stats`. */
  function ComputeStats(mentees: seq<Mentee>): (s: Stats)
    ensures s.totalMentees == |mentees|
    ensures s.withInteractions == |set i | 0 <= i < |mentees| && mentees[i].hasInteraction|
    ensures s.withAcademic == |set i | 0 <= i < |mentees| && mentees[i].hasAcademic|
    ensures s.withInteractions <= s.totalMentees
    ensures s.withAcademic <= s.totalMentees
    ensures s.pendingSubmissions == |set i | 0 <= i < |mentees| && !(mentees[i].hasInteraction && mentees[i].hasAcademic)|
    ensures s.pendingSubmissions == s.totalMentees - |Filter(mentees, Complete)|
  {
    FilterComplement(mentees, Complete, Pending);
    FilterCount(mentees, WithInteraction);
    FilterCount(mentees, WithAcademic);
    FilterCount(mentees, Pending);
    assert PassingPositions(mentees, WithInteraction) == set i | 0 <= i < |mentees| && mentees[i].hasInteraction;
    assert PassingPositions(mentees, WithAcademic) == set i | 0 <= i < |mentees| && mentees[i].hasAcademic;
    assert PassingPositions(mentees, Pending)
        == set i | 0 <= i < |mentees| && !(mentees[i].hasInteraction && mentees[i].hasAcademic);
    Stats(|mentees|, |Filter(mentees, WithInteraction)|, |Filter(mentees, WithAcademic)|,
          |Filter(mentees, Pending)|)
  }

  /** Every complete mentee counts towards both flag counters, so pending
      submissions are at least the shortfall of either counter. */
  lemma StatsPendingBounds(mentees: seq<Mentee>)
    ensures var s := ComputeStats(mentees);
      && s.pendingSubmissions >= s.totalMentees - s.withInteractions
      && s.pendingSubmissions >= s.totalMentees - s.withAcademic
  {
    FilterMonotone(mentees, Complete, WithInteraction);
    FilterMonotone(mentees, Complete, WithAcademic);
  }

  /** The page state this model tracks. `selectedMentee` starts as `null`, and an ok detail reply with a
      `null` body sets it back to that same value. */
  datatype Page = Page(mentees: seq<Mentee>, selectedMentee: Json, activeTab: string)

  const InitialPage := Page([], JNull, "overview")

  /** The list `data.mentees || []` yields. */
  function MenteesOf(data: Json): (ms: seq<Mentee>)
    ensures !(data.JObj? && Has(data.fields, "mentees")) ==> ms == []
    ensures data.JObj? && "mentees" in data.fields && data.fields["mentees"].JArr? ==>
      var items := data.fields["mentees"].items;
      |ms| == |items| && forall i :: 0 <= i < |items| ==> ms[i] == DecodeMentee(items[i])
  {
    if data.JObj? && "mentees" in data.fields && data.fields["mentees"].JArr? then
      var items := data.fields["mentees"].items;
      seq(|items|, i requires 0 <= i < |items| => DecodeMentee(items[i]))
    else []
  }

  /** `fetchMentees`: an ok reply replaces the list; any failure (including a
      `null` body, whose `.mentees` throws) leaves the page as it was. */
  function FetchMentees(page: Page, outcome: FetchOutcome): (p: Page)
    ensures p.selectedMentee == page.selectedMentee && p.activeTab == page.activeTab
    ensures outcome.Failed? || !outcome.ok || outcome.data.JNull? ==> p == page
    ensures outcome.Answered? && outcome.ok && outcome.data.JObj? && !Has(outcome.data.fields, "mentees") ==> p.mentees == []
    ensures (outcome.Answered? && outcome.ok && outcome.data.JObj? && "mentees" in outcome.data.fields
             && outcome.data.fields["mentees"].JArr?) ==>
      var items := outcome.data.fields["mentees"].items;
      |p.mentees| == |items| && forall i :: 0 <= i < |items| ==> p.mentees[i] == DecodeMentee(items[i])
  {
    if outcome.Answered? && outcome.ok && !outcome.data.JNull? then
      page.(mentees := MenteesOf(outcome.data))
    else page
  }

  /** The page's fetch of an authorised `/mentor/mentees` reply lists one
      mentee per merged row, in the server's order, each read from its row. */
  lemma FetchShowsMergedRows(page: Page, store: KvStore.Store, order: seq<string>,
                             header: Option<string>, sessions: map<string, string>)
    requires Server.Authenticate(header, sessions).Ok?
    ensures var rows := MenteeMerge.MergeMentees(
        KvStore.ScanPrefix(store, order, Server.LatestInteractionPrefix),
        KvStore.ScanPrefix(store, order, Server.LatestAcademicPrefix));
      var r := Server.ListMentees(store, order, header, sessions);
      var p := FetchMentees(page, Answered(r.status == 200, JObj(r.body)));
      && p.selectedMentee == page.selectedMentee && p.activeTab == page.activeTab
      && |p.mentees| == |rows|
      && forall i :: 0 <= i < |rows| ==> p.mentees[i] == DecodeMentee(JObj(rows[i]))
  {
  }

  /** `fetchMenteeDetails`: an ok reply is shown in the details tab; a
      failure changes nothing. */
  function FetchMenteeDetails(page: Page, outcome: FetchOutcome): (p: Page)
    ensures p.mentees == page.mentees
    ensures outcome.Answered? && outcome.ok ==> p.selectedMentee == outcome.data && p.activeTab == "details"
    ensures !(outcome.Answered? && outcome.ok) ==> p == page
  {
    if outcome.Answered? && outcome.ok then
      page.(selectedMentee := outcome.data, activeTab := "details")
    else page
  }
}
