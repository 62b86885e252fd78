/** The mentee's page: three form tabs and the list of forms submitted in
    this visit. */
module MenteeDashboard {
  import opened FormSubmit

  datatype Page = Page(activeTab: string, completedForms: seq<string>)

  const InitialPage := Page("interaction", [])

  /** The names the three forms report through `onComplete`. */
  const FormTypes: seq<string> := ["interaction", "attendance", "academic"]

  predicate NoRepeats(xs: seq<string>) {
    forall i, j | 0 <= i < j < |xs| :: xs[i] != xs[j]
  }

  /** `handleFormComplete`: the form is recorded once, after the ones
      already recorded. */
  function HandleFormComplete(p: Page, formType: string): (q: Page)
    ensures q.activeTab == p.activeTab
    ensures formType in q.completedForms
    ensures formType in p.completedForms ==> q == p
    ensures formType !in p.completedForms ==> q.completedForms == p.completedForms + [formType]
    ensures NoRepeats(p.completedForms) ==> NoRepeats(q.completedForms)
  {
    if formType in p.completedForms then p
    else p.(completedForms := p.completedForms + [formType])
  }

  /** Recording the same form twice is the same as recording it once. */
  lemma HandleFormCompleteIdempotent(p: Page, formType: string)
    ensures HandleFormComplete(HandleFormComplete(p, formType), formType) == HandleFormComplete(p, formType)
  {
  }

  /** A form's submit handler calls `onComplete` only on success, so the
      form is listed afterwards exactly when it was listed before or this
      submit succeeded. */
  function AfterSubmit<S>(p: Page, formType: string, s: Submission<S>): (q: Page)
    ensures formType in q.completedForms <==> formType in p.completedForms || s.completed
    ensures forall t :: t != formType ==> (t in q.completedForms <==> t in p.completedForms)
  {
    if s.completed then HandleFormComplete(p, formType) else p
  }

  /** Recording a series of completions in turn. */
  function CompleteAll(p: Page, types: seq<string>): Page
    decreases |types|
  {
    if types == [] then p
    else HandleFormComplete(CompleteAll(p, types[..|types| - 1]), types[|types| - 1])
  }

  /** After any series of completions the list holds each recorded form
      exactly once: the ones listed before and the ones completed since. */
  lemma {:induction false} CompleteAllSpec(p: Page, types: seq<string>)
    requires NoRepeats(p.completedForms)
    ensures var q := CompleteAll(p, types);
      && NoRepeats(q.completedForms)
      && (forall t :: t in q.completedForms <==> t in p.completedForms || t in types)
      && |q.completedForms| >= |p.completedForms|
      && q.completedForms[..|p.completedForms|] == p.completedForms
      && q.activeTab == p.activeTab
    decreases |types|
  {
    if types != [] {
      var init := types[..|types| - 1];
      CompleteAllSpec(p, init);
      var before := CompleteAll(p, init).completedForms;
      var after := CompleteAll(p, types).completedForms;
      assert after[..|before|] == before;
      assert after[..|p.completedForms|] == before[..|p.completedForms|];
      forall t ensures t in types <==> t in init || t == types[|types| - 1] {
        assert types == init + [types[|types| - 1]];
      }
    }
  }

  /** Completing the three forms in any order, repeats included, lists
      all three and nothing else. */
  lemma AllFormsCompleted(types: seq<string>)
    requires forall t :: t in FormTypes ==> t in types
    requires forall t :: t in types ==> t in FormTypes
    ensures var q := CompleteAll(InitialPage, types);
      |q.completedForms| == 3 && forall t :: t in q.completedForms <==> t in FormTypes
  {
    CompleteAllSpec(InitialPage, types);
    var q := CompleteAll(InitialPage, types);
    var xs := q.completedForms;
    // Three distinct names, each drawn from the three form types.
    assert forall i :: 0 <= i < |xs| ==> xs[i] in FormTypes;
    DistinctWithin(xs, FormTypes);
    assert FormTypes[0] in xs && FormTypes[1] in xs && FormTypes[2] in xs;
    var i0 :| 0 <= i0 < |xs| && xs[i0] == "interaction";
    var i1 :| 0 <= i1 < |xs| && xs[i1] == "attendance";
    var i2 :| 0 <= i2 < |xs| && xs[i2] == "academic";
    assert i0 != i1 && i1 != i2 && i0 != i2;
    DistinctIndicesBound(|xs|, i0, i1, i2);
  }

  /** A repeat-free list drawn from three names is at most three long. */
  lemma DistinctWithin(xs: seq<string>, names: seq<string>)
    requires NoRepeats(xs)
    requires |names| == 3
    requires forall i :: 0 <= i < |xs| ==> xs[i] in names
    ensures |xs| <= 3
  {
    var s := set i | 0 <= i < |xs| :: xs[i];
    var m := set n | n in names;
    assert s <= m;
    assert |m| <= 3 by { SetOfSeqSize(names); }
    IndexSetSize(xs);
    SubsetSize(s, m);
  }

  lemma SetOfSeqSize(names: seq<string>)
    ensures |set n | n in names| <= |names|
  {
    if names != [] {
      var rest := names[1..];
      SetOfSeqSize(rest);
      assert (set n | n in names) == (set n | n in rest) + {names[0]};
    }
  }

  lemma {:induction false} IndexSetSize(xs: seq<string>)
    requires NoRepeats(xs)
    ensures |set i | 0 <= i < |xs| :: xs[i]| == |xs|
    decreases |xs|
  {
    if xs != [] {
      var init := xs[..|xs| - 1];
      IndexSetSize(init);
      var a := set i | 0 <= i < |init| :: init[i];
      var b := set i | 0 <= i < |xs| :: xs[i];
      assert b == a + {xs[|xs| - 1]};
      assert xs[|xs| - 1] !in a;
    }
  }

  lemma SubsetSize(a: set<string>, b: set<string>)
    requires a <= b
    ensures |a| <= |b|
  {
    assert b == a + (b - a);
  }

  lemma DistinctIndicesBound(n: nat, i0: nat, i1: nat, i2: nat)
    requires i0 < n && i1 < n && i2 < n
    requires i0 != i1 && i1 != i2 && i0 != i2
    ensures n >= 3
  {
  }
}
