/** The HTTP handlers of the portal's server function that touch the
    key-value store: the three anonymous mentee submissions, the bearer-token
    check guarding mentor routes, and the three mentor reads. */
module Server {
  import opened JsValues
  import opened JsStrings
  import opened KvStore
  import MenteeMerge

  // ---------------------------------------------------------------------
  // Replies and keys
  // ---------------------------------------------------------------------

  /** An HTTP reply: status and JSON object body. */
  datatype Reply = Reply(status: int, body: Record)

  function ErrorReply(status: int, message: string): (r: Reply)
    ensures r.status == status && r.body == map["error" := JStr(message)]
  {
    Reply(status, map["error" := JStr(message)])
  }

  /** A handler's reply together with the store it leaves behind. */
  datatype Handled = Handled(reply: Reply, store: Store)

  datatype Kind = Interaction | Attendance | Academic

  function KindName(kind: Kind): string {
    match kind
    case Interaction => "interaction"
    case Attendance => "attendance"
    case Academic => "academic"
  }

  /** Interaction and academic submissions also keep a latest pointer;
      attendance keeps only its history. */
  predicate KeepsLatest(kind: Kind) {
    kind != Attendance
  }

  /** `<kind>:<prn>:<Date.now()>`, the key of one history entry. */
  function HistoryKey(kind: Kind, prn: Json, now: nat): string {
    KindName(kind) + ":" + ToJsString(prn) + ":" + NatToDecimal(now)
  }

  /** `latest_<kind>:<prn>`, the key of a latest pointer. */
  function LatestKey(kind: Kind, prn: Json): string {
    "latest_" + KindName(kind) + ":" + ToJsString(prn)
  }

  /** `{type: <kind>, ...body, submitted_at: <stamp>}`. */
  function Tagged(kind: Kind, body: Record, stamp: string): Record {
    map["type" := JStr(KindName(kind))] + body + map["submitted_at" := JStr(stamp)]
  }

  function SuccessMessage(kind: Kind): string {
    match kind
    case Interaction => "Interaction form submitted successfully"
    case Attendance => "Attendance submitted successfully"
    case Academic => "Academic details submitted successfully"
  }

  function FailureMessage(kind: Kind): string {
    match kind
    case Interaction => "Failed to submit interaction form"
    case Attendance => "Failed to submit attendance"
    case Academic => "Failed to submit academic form"
  }

  // ---------------------------------------------------------------------
  // Mentee submissions
  // ---------------------------------------------------------------------

  /** `formData.prn && formData.name` on the parsed body: only an object can
      carry the two properties. */
  predicate Accepted(body: Json) {
    body.JObj? && Has(body.fields, "prn") && Has(body.fields, "name")
  }

  /** An accepted body whose `prn` the key's template literal can convert:
      the handler reaches its writes. */
  predicate Stores(body: Json) {
    Accepted(body) && Convertible(body.fields["prn"])
  }

  /** `POST /mentee/<kind>`. `body` is `None` when the request is not valid
      JSON; `now` is `Date.now()`; the two stamps are the two
      `new Date().toISOString()` calls (history entry, then latest pointer).
      Reading `.prn` of a `null` body throws, and so does the history key's
      template literal on a `prn` that is not `Convertible`, before anything
      is written; the handler reports both as a 500. */
  function Submit(kind: Kind, store: Store, body: Option<Json>, now: nat,
                  historyStamp: string, latestStamp: string): (h: Handled)
    ensures h.reply.status == 500 <==>
      body.None? || body.value.JNull? || (Accepted(body.value) && !Convertible(body.value.fields["prn"]))
    ensures h.reply.status == 500 ==> h.reply == ErrorReply(500, FailureMessage(kind))
    ensures h.reply.status == 400 <==> body.Some? && !body.value.JNull? && !Accepted(body.value)
    ensures h.reply.status == 400 ==> h.reply == ErrorReply(400, "PRN and name are required")
    ensures h.reply.status == 200 <==> body.Some? && Stores(body.value)
    ensures h.reply.status != 200 ==> h.store == store
    ensures h.reply.status == 200 ==>
      var prn := body.value.fields["prn"];
      var hk := HistoryKey(kind, prn, now);
      var lk := LatestKey(kind, prn);
      && h.store.Keys == store.Keys + {hk} + (if KeepsLatest(kind) then {lk} else {})
      && h.store[hk] == Tagged(kind, body.value.fields, historyStamp)
      && (KeepsLatest(kind) ==> h.store[lk] == Tagged(kind, body.value.fields, latestStamp))
      && (forall k :: k in store && k != hk && (k != lk || !KeepsLatest(kind)) ==> h.store[k] == store[k])
      && "id" in h.reply.body && h.reply.body["id"] == JStr(hk)
  {
    if body.None? || body.value.JNull? then
      Handled(ErrorReply(500, FailureMessage(kind)), store)
    else if !Accepted(body.value) then
      Handled(ErrorReply(400, "PRN and name are required"), store)
    else if !Convertible(body.value.fields["prn"]) then
      Handled(ErrorReply(500, FailureMessage(kind)), store)
    else
      var fields := body.value.fields;
      var prn := fields["prn"];
      var hk := HistoryKey(kind, prn, now);
      assert hk != LatestKey(kind, prn) by { HistoryKeyIsNotLatestKey(kind, prn, now, kind, prn); }
      var s1 := Put(store, hk, Tagged(kind, fields, historyStamp));
      var s2 := if KeepsLatest(kind) then Put(s1, LatestKey(kind, prn), Tagged(kind, fields, latestStamp)) else s1;
      Handled(Reply(200, map["message" := JStr(SuccessMessage(kind)), "id" := JStr(hk)]), s2)
  }

  /** A `prn` object with its own `toString` passes the 400 check, but its
      history key cannot be built: the reply is a 500 and nothing is written. */
  lemma OwnToStringPrnRejected(kind: Kind, store: Store, now: nat, historyStamp: string, latestStamp: string)
    ensures var body := JObj(map["prn" := JObj(map["toString" := JNum(0)]), "name" := JStr("x")]);
      && Accepted(body)
      && Submit(kind, store, Some(body), now, historyStamp, latestStamp) == Handled(ErrorReply(500, FailureMessage(kind)), store)
  {
  }

  /** The stored record is the body plus the `type` tag and the server's
      `submitted_at`. The spread comes after the tag, so a client-supplied
      `type` replaces the tag; `submitted_at` is written last, so the server's
      stamp always wins. */
  lemma TaggedFields(kind: Kind, body: Record, stamp: string)
    ensures var r := Tagged(kind, body, stamp);
      && r.Keys == body.Keys + {"type", "submitted_at"}
      && r["submitted_at"] == JStr(stamp)
      && r["type"] == (if "type" in body then body["type"] else JStr(KindName(kind)))
      && forall k :: k in body && k != "submitted_at" ==> r[k] == body[k]
  {
  }

  /** A history key and a latest key never coincide, whatever the PRNs. */
  lemma HistoryKeyIsNotLatestKey(k1: Kind, p1: Json, now: nat, k2: Kind, p2: Json)
    ensures HistoryKey(k1, p1, now) != LatestKey(k2, p2)
  {
    assert HistoryKey(k1, p1, now)[0] == KindName(k1)[0];
    assert LatestKey(k2, p2)[0] == 'l';
  }

  /** A string split at its last `c` determines both halves. */
  lemma {:induction false} SplitAtLastSeparator(x: string, d1: string, y: string, d2: string, c: char)
    requires c !in d1 && c !in d2
    requires x + [c] + d1 == y + [c] + d2
    ensures x == y && d1 == d2
  {
    var s := x + [c] + d1;
    AfterLastConcat(x, c, d1);
    AfterLastConcat(y, c, d2);
    assert x == s[..|x|];
    assert y == s[..|y|];
  }

  /** History keys are unique per kind, PRN text and timestamp: the timestamp
      is the digits after the last colon, so even a PRN containing colons
      cannot make two different submissions share a key. */
  lemma HistoryKeyInjective(kind: Kind, p1: Json, t1: nat, p2: Json, t2: nat)
    requires HistoryKey(kind, p1, t1) == HistoryKey(kind, p2, t2)
    ensures ToJsString(p1) == ToJsString(p2) && t1 == t2
  {
    var a1, a2 := KindName(kind) + ":" + ToJsString(p1), KindName(kind) + ":" + ToJsString(p2);
    var d1, d2 := NatToDecimal(t1), NatToDecimal(t2);
    assert HistoryKey(kind, p1, t1) == a1 + [':'] + d1;
    assert HistoryKey(kind, p2, t2) == a2 + [':'] + d2;
    SplitAtLastSeparator(a1, d1, a2, d2, ':');
    NatToDecimalInjective(t1, t2);
    var n := |KindName(kind) + ":"|;
    assert ToJsString(p1) == a1[n..];
    assert ToJsString(p2) == a2[n..];
  }

  /** Two accepted submissions of one kind for one PRN at different times
      leave two history entries, and the latest pointer holds the second. */
  lemma SubmitTwice(kind: Kind, store: Store, b1: Json, b2: Json, t1: nat, t2: nat,
                    h1: string, l1: string, h2: string, l2: string)
    requires Stores(b1) && Stores(b2)
    requires b1.fields["prn"] == b2.fields["prn"]
    requires t1 != t2
    ensures var s1 := Submit(kind, store, Some(b1), t1, h1, l1).store;
      var s2 := Submit(kind, s1, Some(b2), t2, h2, l2).store;
      var prn := b1.fields["prn"];
      && HistoryKey(kind, prn, t1) != HistoryKey(kind, prn, t2)
      && s2[HistoryKey(kind, prn, t1)] == Tagged(kind, b1.fields, h1)
      && s2[HistoryKey(kind, prn, t2)] == Tagged(kind, b2.fields, h2)
      && (KeepsLatest(kind) ==> s2[LatestKey(kind, prn)] == Tagged(kind, b2.fields, l2))
  {
    var prn := b1.fields["prn"];
    if HistoryKey(kind, prn, t1) == HistoryKey(kind, prn, t2) {
      HistoryKeyInjective(kind, prn, t1, prn, t2);
    }
    HistoryKeyIsNotLatestKey(kind, prn, t1, kind, prn);
  }

  // ---------------------------------------------------------------------
  // Mentor routes
  // ---------------------------------------------------------------------

  /** `header?.split(' ')[1]` kept only when truthy: the text between the
      first and the second space of the `Authorization` header. */
  function BearerToken(header: Option<string>): (t: Option<string>)
    ensures t.Some? ==> t.value != "" && ' ' !in t.value
    ensures header.None? ==> t.None?
    ensures header.Some? && ' ' !in header.value ==> t.None?
  {
    if header.None? then None
    else
      var parts := Split(header.value, ' ');
      if |parts| > 1 && parts[1] != "" then Some(parts[1])
      else
        assert ' ' !in header.value ==> |parts| == 1 by {
          if |parts| > 1 {
            assert header.value == parts[0] + [' '] + Join(parts[1..], ' ');
            assert header.value[|parts[0]|] == ' ';
          }
        }
        None
  }

  /** `header` is a space-free first field `w`, a space, a space-free second
      field `x`, and then nothing or a space followed by anything. */
  predicate BearerShape(header: string, w: string, x: string, rest: string) {
    && ' ' !in w && ' ' !in x
    && (rest == "" || rest[0] == ' ')
    && header == w + " " + x + rest
  }

  /** Whatever follows it, the second space-separated field is the token,
      and an empty second field (two spaces in a row) gives none. */
  lemma BearerTokenFields(header: string, w: string, x: string, rest: string)
    requires BearerShape(header, w, x, rest)
    ensures BearerToken(Some(header)) == (if x == "" then None else Some(x))
  {
    if rest == "" {
      assert header == Join([w, x], ' ');
      SplitJoin([w, x], ' ');
    } else {
      var ps := Split(rest[1..], ' ');
      var parts := [w, x] + ps;
      assert parts[1..] == [x] + ps;
      assert ([x] + ps)[1..] == ps;
      assert Join([x] + ps, ' ') == x + [' '] + Join(ps, ' ');
      assert rest == [' '] + rest[1..];
      assert header == Join(parts, ' ');
      SplitJoin(parts, ' ');
    }
  }

  /** Every header containing a space has that shape, so together with
      BearerTokenFields and the ensures of BearerToken this fixes the token
      of every header. */
  lemma BearerTokenHasShape(header: string)
    requires ' ' in header
    ensures exists w, x, rest :: BearerShape(header, w, x, rest)
  {
    var parts := Split(header, ' ');
    var rest := if |parts| == 2 then "" else [' '] + Join(parts[2..], ' ');
    assert parts[1..][1..] == parts[2..];
    assert Join(parts[1..], ' ') == parts[1] + rest;
    assert BearerShape(header, parts[0], parts[1], rest);
  }

  /** The header the portal's pages send, `Bearer <token>`, yields the token
      back. */
  lemma BearerTokenRoundTrip(token: string)
    requires token != "" && ' ' !in token
    ensures BearerToken(Some("Bearer " + token)) == Some(token)
  {
    assert "Bearer " + token == Join(["Bearer", token], ' ');
    SplitJoin(["Bearer", token], ' ');
  }

  /** `authenticateUser`: the identity provider is an oracle, `sessions`,
      mapping each valid access token to its user id. */
  function Authenticate(header: Option<string>, sessions: map<string, string>): (r: Result)
    ensures r.Err? <==> BearerToken(header).None? || BearerToken(header).value !in sessions
    ensures r.Ok? ==> r.user == sessions[BearerToken(header).value]
    ensures BearerToken(header).None? ==> r == Err(ErrorReply(401, "Authorization token required"))
    ensures BearerToken(header).Some? && BearerToken(header).value !in sessions ==>
      r == Err(ErrorReply(401, "Unauthorized"))
    ensures r.Err? ==> r.reply.status == 401
  {
    var token := BearerToken(header);
    if token.None? then Err(ErrorReply(401, "Authorization token required"))
    else if token.value !in sessions then Err(ErrorReply(401, "Unauthorized"))
    else Ok(sessions[token.value])
  }

  datatype Result = Ok(user: string) | Err(reply: Reply)

  function RecordsToJson(rs: seq<Record>): (j: Json)
    ensures j.JArr? && |j.items| == |rs|
    ensures forall i :: 0 <= i < |rs| ==> j.items[i] == JObj(rs[i])
  {
    JArr(seq(|rs|, i requires 0 <= i < |rs| => JObj(rs[i])))
  }

  const LatestInteractionPrefix := "latest_interaction:"
  const LatestAcademicPrefix := "latest_academic:"

  /** `GET /mentor/mentees`: the merged latest records, one row per PRN. */
  function ListMentees(store: Store, order: seq<string>, header: Option<string>,
                       sessions: map<string, string>): (r: Reply)
    ensures Authenticate(header, sessions).Err? ==> r == Authenticate(header, sessions).reply
    ensures Authenticate(header, sessions).Ok? ==>
      && r.status == 200 && r.body.Keys == {"mentees"}
      && "mentees" in r.body && r.body["mentees"] == RecordsToJson(MenteeMerge.MergeMentees(
           ScanPrefix(store, order, LatestInteractionPrefix),
           ScanPrefix(store, order, LatestAcademicPrefix)))
  {
    var auth := Authenticate(header, sessions);
    if auth.Err? then auth.reply
    else
      var interactions := ScanPrefix(store, order, LatestInteractionPrefix);
      var academics := ScanPrefix(store, order, LatestAcademicPrefix);
      Reply(200, map["mentees" := RecordsToJson(MenteeMerge.MergeMentees(interactions, academics))])
  }

  /** The scan prefix for one PRN's history of one kind. */
  function HistoryPrefix(kind: Kind, prn: string): string {
    KindName(kind) + ":" + prn + ":"
  }

  /** `GET /mentor/mentee/:prn`: the PRN's interaction and attendance
      histories and its latest academic record, which is left out of the
      reply when there is none. */
  function MenteeDetail(store: Store, order: seq<string>, header: Option<string>,
                        sessions: map<string, string>, prn: string): (r: Reply)
    ensures Authenticate(header, sessions).Err? ==> r == Authenticate(header, sessions).reply
    ensures Authenticate(header, sessions).Ok? ==>
      && r.status == 200
      && {"prn", "interactions", "attendance"} <= r.body.Keys
      && r.body["prn"] == JStr(prn)
      && r.body["interactions"] == RecordsToJson(ScanPrefix(store, order, HistoryPrefix(Interaction, prn)))
      && r.body["attendance"] == RecordsToJson(ScanPrefix(store, order, HistoryPrefix(Attendance, prn)))
      && ("academic" in r.body <==> LatestKey(Academic, JStr(prn)) in store)
      && ("academic" in r.body ==> r.body["academic"] == JObj(store[LatestKey(Academic, JStr(prn))]))
  {
    var auth := Authenticate(header, sessions);
    if auth.Err? then auth.reply
    else
      var reply := map[
        "prn" := JStr(prn),
        "interactions" := RecordsToJson(ScanPrefix(store, order, HistoryPrefix(Interaction, prn))),
        "attendance" := RecordsToJson(ScanPrefix(store, order, HistoryPrefix(Attendance, prn)))];
      var academic := Lookup(store, LatestKey(Academic, JStr(prn)));
      Reply(200, if academic.Some? then reply["academic" := JObj(academic.value)] else reply)
  }

  /** `GET /mentor/dashboard`: the mentor's own record and the raw latest and
      attendance collections, unmerged. */
  function Dashboard(store: Store, order: seq<string>, header: Option<string>,
                     sessions: map<string, string>): (r: Reply)
    ensures Authenticate(header, sessions).Err? ==> r == Authenticate(header, sessions).reply
    ensures Authenticate(header, sessions).Ok? ==>
      var key := "mentor:" + Authenticate(header, sessions).user;
      && r.status == 200
      && ("mentor" in r.body <==> key in store)
      && ("mentor" in r.body ==> r.body["mentor"] == JObj(store[key]))
      && "mentees" in r.body && r.body["mentees"] == JObj(map[
           "interactions" := RecordsToJson(ScanPrefix(store, order, LatestInteractionPrefix)),
           "academic" := RecordsToJson(ScanPrefix(store, order, LatestAcademicPrefix)),
           "attendance" := RecordsToJson(ScanPrefix(store, order, "attendance:"))])
  {
    var auth := Authenticate(header, sessions);
    if auth.Err? then auth.reply
    else
      var mentor := Lookup(store, "mentor:" + auth.user);
      var mentees := JObj(map[
        "interactions" := RecordsToJson(ScanPrefix(store, order, LatestInteractionPrefix)),
        "academic" := RecordsToJson(ScanPrefix(store, order, LatestAcademicPrefix)),
        "attendance" := RecordsToJson(ScanPrefix(store, order, "attendance:"))]);
      var body := map["mentees" := mentees];
      Reply(200, if mentor.Some? then body["mentor" := JObj(mentor.value)] else body)
  }

  // ---------------------------------------------------------------------
  // Properties across handlers
  // ---------------------------------------------------------------------

  /** The detail scan for PRN `p` picks up the history of PRN `q` exactly
      when `q == p`, provided neither contains a colon. */
  lemma DetailPrefixIsolation(kind: Kind, p: string, q: string, now: nat)
    requires ':' !in p && ':' !in q
    ensures StartsWith(HistoryKey(kind, JStr(q), now), HistoryPrefix(kind, p)) <==> p == q
  {
    var n := |KindName(kind) + ":"|;
    var key := HistoryKey(kind, JStr(q), now);
    var pre := HistoryPrefix(kind, p);
    if p == q {
      StartsWithConcat(pre, NatToDecimal(now));
      assert key == pre + NatToDecimal(now);
    } else if StartsWith(key, pre) {
      assert key[..n] == pre[..n];
      assert key[n..] == q + [':'] + NatToDecimal(now);
      assert pre[n..] == p + [':'];
      assert StartsWith(key[n..], pre[n..]) by {
        assert key[n..][..|pre| - n] == key[..|pre|][n..];
      }
      BeforeFirstOfPrefix(key[n..], pre[n..], ':');
      BeforeFirstConcat(q, ':', NatToDecimal(now));
      BeforeFirstConcat(p, ':', []);
    }
  }

  /** The server never rejects a colon in a PRN, and then the isolation fails:
      the history of PRN `p + ":" + rest` is returned as part of PRN `p`'s. */
  lemma DetailPrefixLeak(kind: Kind, p: string, rest: string, now: nat)
    ensures StartsWith(HistoryKey(kind, JStr(p + ":" + rest), now), HistoryPrefix(kind, p))
  {
    var key := HistoryKey(kind, JStr(p + ":" + rest), now);
    assert key == HistoryPrefix(kind, p) + (rest + ":" + NatToDecimal(now));
    StartsWithConcat(HistoryPrefix(kind, p), rest + ":" + NatToDecimal(now));
  }

  /** Without a usable bearer token the mentor routes answer 401 whatever
      the store holds. */
  lemma MissingTokenRejected(store: Store, order: seq<string>, header: Option<string>,
                             sessions: map<string, string>, prn: string)
    requires BearerToken(header).None?
    ensures var denied := ErrorReply(401, "Authorization token required");
      && MenteeDetail(store, order, header, sessions, prn) == denied
      && ListMentees(store, order, header, sessions) == denied
      && Dashboard(store, order, header, sessions) == denied
  {
  }

  /** An accepted academic submission is what a later authorised detail
      request for that PRN reports under `academic`. */
  lemma SubmitAcademicThenDetail(store: Store, order: seq<string>, body: Json, now: nat,
                                 historyStamp: string, latestStamp: string,
                                 header: Option<string>, sessions: map<string, string>, prn: string)
    requires Accepted(body) && body.fields["prn"] == JStr(prn)
    requires Authenticate(header, sessions).Ok?
    ensures var s := Submit(Academic, store, Some(body), now, historyStamp, latestStamp).store;
      var r := MenteeDetail(s, order, header, sessions, prn);
      && "academic" in r.body
      && r.body["academic"] == JObj(Tagged(Academic, body.fields, latestStamp))
  {
  }
}
