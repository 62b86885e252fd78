/** The `/mentor/mentees` aggregation: the latest interaction records and the
    latest academic records are folded into an ECMAScript `Map` keyed by PRN,
    one shallow spread per record, and the map's values become the reply.

    Next to the fold this module gives a reference description of its result
    that does not mention the map: the row keys are the distinct truthy PRNs
    in order of first appearance (`FirstOccurrences`), and the row for a PRN
    is the overlay of that PRN's records, layer by layer (`Summary`). */
module MenteeMerge {
  import opened JsValues
  import opened JsMap

  const HasInteraction := "hasInteraction"
  const HasAcademic := "hasAcademic"

  // ---------------------------------------------------------------------
  // The fold, as the handler performs it
  // ---------------------------------------------------------------------

  /** One `forEach` step: a record with a truthy `prn` replaces the entry for
      that PRN by `{...entry, ...record, [flag]: true}`; any other record is
      skipped. */
  function AddRecord(m: OrderedMap, r: Record, flag: string): OrderedMap {
    if Has(r, "prn") then
      var p := r["prn"];
      Set(m, p, GetOrEmpty(m, p) + r + map[flag := JBool(true)])
    else m
  }

  /** `records.forEach(...)`, left to right. */
  function AddAll(m: OrderedMap, rs: seq<Record>, flag: string): OrderedMap
    decreases |rs|
  {
    if rs == [] then m
    else AddRecord(AddAll(m, rs[..|rs| - 1], flag), rs[|rs| - 1], flag)
  }

  /** The entries after both loops. */
  function MergeMap(interactions: seq<Record>, academics: seq<Record>): OrderedMap {
    AddAll(AddAll(Empty, interactions, HasInteraction), academics, HasAcademic)
  }

  /** The `mentees` array of the reply. */
  function MergeMentees(interactions: seq<Record>, academics: seq<Record>): (rows: seq<Record>)
    ensures Valid(MergeMap(interactions, academics))
    ensures rows == Values(MergeMap(interactions, academics))
  {
    AddAllValid(Empty, interactions, HasInteraction);
    AddAllValid(AddAll(Empty, interactions, HasInteraction), academics, HasAcademic);
    Values(MergeMap(interactions, academics))
  }

  // ---------------------------------------------------------------------
  // Reference description
  // ---------------------------------------------------------------------

  /** The truthy `prn` values of the records, in order. */
  function Prns(rs: seq<Record>): seq<Json>
    decreases |rs|
  {
    if rs == [] then []
    else
      var last := rs[|rs| - 1];
      Prns(rs[..|rs| - 1]) + (if Has(last, "prn") then [last["prn"]] else [])
  }

  /** `ks` followed by each element of `xs` that has not appeared before. */
  function Extend(ks: seq<Json>, xs: seq<Json>): seq<Json>
    decreases |xs|
  {
    if xs == [] then ks
    else
      var e := Extend(ks, xs[..|xs| - 1]);
      if xs[|xs| - 1] in e then e else e + [xs[|xs| - 1]]
  }

  /** The distinct elements of `xs`, each at the position of its first
      occurrence. */
  function FirstOccurrences(xs: seq<Json>): seq<Json> {
    Extend([], xs)
  }

  /** The records filed under PRN `p`, in order. */
  function WithPrn(rs: seq<Record>, p: Json): (ws: seq<Record>)
    ensures forall r :: r in ws ==> r in rs && Has(r, "prn") && r["prn"] == p
    decreases |rs|
  {
    if rs == [] then []
    else
      var last := rs[|rs| - 1];
      WithPrn(rs[..|rs| - 1], p) + (if Has(last, "prn") && last["prn"] == p then [last] else [])
  }

  /** `{...rs[0], ...rs[1], ...}`: later records win on shared property names. */
  function Overlay(rs: seq<Record>): Record
    decreases |rs|
  {
    if rs == [] then map[] else Overlay(rs[..|rs| - 1]) + rs[|rs| - 1]
  }

  /** One source's contribution on top of `base`: nothing when the source
      has no record for the PRN, otherwise its records overlaid and the flag
      set. */
  function Layer(base: Record, rs: seq<Record>, flag: string): Record {
    if rs == [] then base else base + Overlay(rs) + map[flag := JBool(true)]
  }

  /** The row the aggregation should produce for PRN `p`. */
  function Summary(interactions: seq<Record>, academics: seq<Record>, p: Json): Record {
    Layer(Layer(map[], WithPrn(interactions, p), HasInteraction), WithPrn(academics, p), HasAcademic)
  }

  // ---------------------------------------------------------------------
  // The fold meets the reference
  // ---------------------------------------------------------------------

  lemma {:induction false} AddAllValid(m: OrderedMap, rs: seq<Record>, flag: string)
    requires Valid(m)
    ensures Valid(AddAll(m, rs, flag))
    decreases |rs|
  {
    if rs != [] {
      AddAllValid(m, rs[..|rs| - 1], flag);
    }
  }

  /** The fold's key order is `Extend` over the records' truthy PRNs. */
  lemma {:induction false} AddAllKeys(m: OrderedMap, rs: seq<Record>, flag: string)
    requires Valid(m)
    ensures AddAll(m, rs, flag).keys == Extend(m.keys, Prns(rs))
    decreases |rs|
  {
    if rs != [] {
      var init := rs[..|rs| - 1];
      var last := rs[|rs| - 1];
      AddAllKeys(m, init, flag);
      AddAllValid(m, init, flag);
      if Has(last, "prn") {
        var xs := Prns(rs);
        assert xs == Prns(init) + [last["prn"]];
        assert xs[..|xs| - 1] == Prns(init);
      } else {
        assert Prns(rs) == Prns(init);
      }
    }
  }

  /** Overlaying one more record of the same source onto a layer is the layer
      of the longer sequence. */
  lemma LayerSnoc(base: Record, ws: seq<Record>, last: Record, flag: string)
    ensures Layer(base, ws, flag) + last + map[flag := JBool(true)] == Layer(base, ws + [last], flag)
  {
    var f := map[flag := JBool(true)];
    assert (ws + [last])[..|ws|] == ws;
    if ws == [] {
      assert Overlay([last]) == map[] + last;
      assert base + (map[] + last) == base + last;
    } else {
      var o := Overlay(ws);
      assert Overlay(ws + [last]) == o + last;
      var lhs := (base + o + f) + last + f;
      var rhs := base + (o + last) + f;
      assert lhs.Keys == rhs.Keys;
      forall k | k in lhs
        ensures lhs[k] == rhs[k]
      {
      }
    }
  }

  /** The fold's entry for PRN `p` is the base entry with `p`'s records layered
      on, and it exists exactly when the base had one or a record names `p`. */
  lemma {:induction false} AddAllEntry(m: OrderedMap, rs: seq<Record>, flag: string, p: Json)
    ensures var m' := AddAll(m, rs, flag);
      && (p in m'.vals <==> p in m.vals || WithPrn(rs, p) != [])
      && (p in m'.vals ==> m'.vals[p] == Layer(GetOrEmpty(m, p), WithPrn(rs, p), flag))
    decreases |rs|
  {
    if rs != [] {
      var init := rs[..|rs| - 1];
      var last := rs[|rs| - 1];
      AddAllEntry(m, init, flag, p);
      var before := AddAll(m, init, flag);
      var ws := WithPrn(init, p);
      if Has(last, "prn") && last["prn"] == p {
        assert WithPrn(rs, p) == ws + [last];
        assert GetOrEmpty(before, p) == Layer(GetOrEmpty(m, p), ws, flag);
        LayerSnoc(GetOrEmpty(m, p), ws, last, flag);
      } else {
        assert WithPrn(rs, p) == ws;
      }
    }
  }

  /** `Extend` composes: extending by `xs` and then by `ys` is extending by
      `xs + ys`. */
  lemma {:induction false} ExtendAppend(ks: seq<Json>, xs: seq<Json>, ys: seq<Json>)
    ensures Extend(Extend(ks, xs), ys) == Extend(ks, xs + ys)
    decreases |ys|
  {
    if ys == [] {
      assert xs + ys == xs;
    } else {
      var zs := xs + ys;
      assert zs[..|zs| - 1] == xs + ys[..|ys| - 1];
      assert zs[|zs| - 1] == ys[|ys| - 1];
      ExtendAppend(ks, xs, ys[..|ys| - 1]);
    }
  }

  /** Headline contract of the aggregation: one row per distinct truthy PRN,
      in order of first appearance (interactions before academics), and each
      row is that PRN's reference summary. */
  lemma MergeMenteesSpec(interactions: seq<Record>, academics: seq<Record>)
    ensures var rows := MergeMentees(interactions, academics);
      var keys := FirstOccurrences(Prns(interactions) + Prns(academics));
      && |rows| == |keys|
      && forall i :: 0 <= i < |rows| ==> rows[i] == Summary(interactions, academics, keys[i])
  {
    var m1 := AddAll(Empty, interactions, HasInteraction);
    var m2 := AddAll(m1, academics, HasAcademic);
    AddAllValid(Empty, interactions, HasInteraction);
    AddAllKeys(Empty, interactions, HasInteraction);
    AddAllKeys(m1, academics, HasAcademic);
    ExtendAppend([], Prns(interactions), Prns(academics));
    var keys := m2.keys;
    forall i | 0 <= i < |keys|
      ensures m2.vals[keys[i]] == Summary(interactions, academics, keys[i])
    {
      var p := keys[i];
      AddAllEntry(Empty, interactions, HasInteraction, p);
      AddAllEntry(m1, academics, HasAcademic, p);
      if p !in m1.vals {
        assert WithPrn(interactions, p) == [];
      }
    }
  }

  // ---------------------------------------------------------------------
  // Properties of the reference
  // ---------------------------------------------------------------------

  function IndexOf(xs: seq<Json>, x: Json): (i: nat)
    requires x in xs
    ensures i < |xs| && xs[i] == x
    ensures forall j :: 0 <= j < i ==> xs[j] != x
  {
    if xs[0] == x then 0 else 1 + IndexOf(xs[1..], x)
  }

  lemma IndexOfPrefix(xs: seq<Json>, n: nat, x: Json)
    requires n <= |xs| && x in xs[..n]
    ensures IndexOf(xs[..n], x) == IndexOf(xs, x)
  {
    var i := IndexOf(xs[..n], x);
    var j := IndexOf(xs, x);
    assert xs[..n][i] == xs[i];
  }

  /** `FirstOccurrences(xs)` lists each element of `xs` exactly once, ordered
      by where it first appears in `xs`. */
  lemma {:induction false} FirstOccurrencesSpec(xs: seq<Json>)
    ensures Distinct(FirstOccurrences(xs))
    ensures forall x :: x in FirstOccurrences(xs) <==> x in xs
    ensures forall i, j :: 0 <= i < j < |FirstOccurrences(xs)| ==>
      IndexOf(xs, FirstOccurrences(xs)[i]) < IndexOf(xs, FirstOccurrences(xs)[j])
    decreases |xs|
  {
    if xs != [] {
      var init := xs[..|xs| - 1];
      var x := xs[|xs| - 1];
      assert xs == init + [x];
      FirstOccurrencesSpec(init);
      var e := FirstOccurrences(init);
      var r := FirstOccurrences(xs);
      forall y | y in e
        ensures IndexOf(xs, y) == IndexOf(init, y)
      {
        IndexOfPrefix(xs, |xs| - 1, y);
      }
      if x !in e {
        assert IndexOf(xs, x) == |xs| - 1;
        assert r == e + [x];
        forall i, j | 0 <= i < j < |r|
          ensures IndexOf(xs, r[i]) < IndexOf(xs, r[j])
        {
          if j < |e| {
            assert r[i] == e[i] && r[j] == e[j];
          } else {
            assert r[i] == e[i];
          }
        }
      }
    }
  }

  /** Extending keeps what was there in place: earlier keys are never moved. */
  lemma {:induction false} ExtendKeepsPrefix(ks: seq<Json>, xs: seq<Json>)
    ensures |ks| <= |Extend(ks, xs)| && Extend(ks, xs)[..|ks|] == ks
    ensures forall i :: |ks| <= i < |Extend(ks, xs)| ==> Extend(ks, xs)[i] in xs && Extend(ks, xs)[i] !in ks
    decreases |xs|
  {
    if xs != [] {
      ExtendKeepsPrefix(ks, xs[..|xs| - 1]);
    }
  }

  /** Rows come interaction PRNs first, in their own order, then the PRNs
      found only among academic records; a PRN's position is fixed by its
      first record and later records never move it. */
  lemma InteractionRowsFirst(interactions: seq<Record>, academics: seq<Record>)
    ensures var keys := FirstOccurrences(Prns(interactions) + Prns(academics));
      var front := FirstOccurrences(Prns(interactions));
      && |front| <= |keys| && keys[..|front|] == front
      && forall i :: |front| <= i < |keys| ==> keys[i] in Prns(academics) && keys[i] !in Prns(interactions)
  {
    var front := FirstOccurrences(Prns(interactions));
    ExtendAppend([], Prns(interactions), Prns(academics));
    ExtendKeepsPrefix(front, Prns(academics));
    FirstOccurrencesSpec(Prns(interactions));
  }

  /** A PRN appears among the rows exactly when some record carries it as a
      truthy `prn`. */
  lemma {:induction false} PrnsSpec(rs: seq<Record>, p: Json)
    ensures p in Prns(rs) <==> WithPrn(rs, p) != []
    decreases |rs|
  {
    if rs != [] {
      PrnsSpec(rs[..|rs| - 1], p);
    }
  }

  /** A record without a truthy `prn` leaves the result untouched. */
  lemma RecordWithoutPrnIgnored(interactions: seq<Record>, academics: seq<Record>, r: Record)
    requires !Has(r, "prn")
    ensures MergeMentees(interactions + [r], academics) == MergeMentees(interactions, academics)
    ensures MergeMentees(interactions, academics + [r]) == MergeMentees(interactions, academics)
  {
    assert (interactions + [r])[..|interactions|] == interactions;
    assert (academics + [r])[..|academics|] == academics;
  }

  lemma {:induction false} OverlayKeys(rs: seq<Record>, k: string)
    ensures k in Overlay(rs) <==> exists r :: r in rs && k in r
    decreases |rs|
  {
    if rs != [] {
      var init := rs[..|rs| - 1];
      OverlayKeys(init, k);
      assert rs == init + [rs[|rs| - 1]];
      if exists r :: r in rs && k in r {
        var r :| r in rs && k in r;
        if r != rs[|rs| - 1] {
          assert r in init;
        }
      }
    }
  }

  lemma {:induction false} OverlayPrn(rs: seq<Record>, p: Json)
    requires rs != []
    requires forall r :: r in rs ==> "prn" in r && r["prn"] == p
    ensures "prn" in Overlay(rs) && Overlay(rs)["prn"] == p
    decreases |rs|
  {
  }

  /** Every row names its own PRN. */
  lemma SummaryPrn(interactions: seq<Record>, academics: seq<Record>, p: Json)
    requires WithPrn(interactions, p) != [] || WithPrn(academics, p) != []
    ensures "prn" in Summary(interactions, academics, p)
    ensures Summary(interactions, academics, p)["prn"] == p
  {
    var ws := WithPrn(interactions, p);
    var as_ := WithPrn(academics, p);
    if as_ != [] {
      OverlayPrn(as_, p);
    } else {
      OverlayPrn(ws, p);
    }
  }

  /** On a shared property name the latest academic record wins over every
      interaction record. */
  lemma AcademicWins(interactions: seq<Record>, academics: seq<Record>, p: Json, k: string)
    requires WithPrn(academics, p) != []
    requires k != HasAcademic
    requires var as_ := WithPrn(academics, p); k in as_[|as_| - 1]
    ensures var as_ := WithPrn(academics, p);
      k in Summary(interactions, academics, p) && Summary(interactions, academics, p)[k] == as_[|as_| - 1][k]
  {
  }

  /** A PRN with only interaction records is flagged `hasInteraction` and has
      no `hasAcademic` property unless one of its records brought one. */
  lemma InteractionOnlyFlags(interactions: seq<Record>, academics: seq<Record>, p: Json)
    requires WithPrn(interactions, p) != [] && WithPrn(academics, p) == []
    ensures Summary(interactions, academics, p)[HasInteraction] == JBool(true)
    ensures HasAcademic in Summary(interactions, academics, p) <==>
      exists r :: r in WithPrn(interactions, p) && HasAcademic in r
  {
    OverlayKeys(WithPrn(interactions, p), HasAcademic);
  }

  /** A PRN with only academic records is flagged `hasAcademic` and has no
      `hasInteraction` property unless one of its records brought one. */
  lemma AcademicOnlyFlags(interactions: seq<Record>, academics: seq<Record>, p: Json)
    requires WithPrn(interactions, p) == [] && WithPrn(academics, p) != []
    ensures Summary(interactions, academics, p)[HasAcademic] == JBool(true)
    ensures HasInteraction in Summary(interactions, academics, p) <==>
      exists r :: r in WithPrn(academics, p) && HasInteraction in r
  {
    OverlayKeys(WithPrn(academics, p), HasInteraction);
  }

  /** A PRN with records of both kinds carries both flags, unless an academic
      record itself overrides `hasInteraction`. */
  lemma BothFlags(interactions: seq<Record>, academics: seq<Record>, p: Json)
    requires WithPrn(interactions, p) != [] && WithPrn(academics, p) != []
    requires forall r :: r in WithPrn(academics, p) ==> HasInteraction !in r
    ensures Summary(interactions, academics, p)[HasAcademic] == JBool(true)
    ensures Summary(interactions, academics, p)[HasInteraction] == JBool(true)
  {
    OverlayKeys(WithPrn(academics, p), HasInteraction);
  }
}
