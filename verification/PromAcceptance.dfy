/** Which selectors the scoper accepts: exactly those that ask for nothing of a WAF that is not allowed. */
module PromAcceptance {
  import opened Text
  import opened PromLexer
  import opened PromScope
  import opened PromTree
  import opened PromScopeTree
  import opened PromSlice

  /** The matcher is on this identity label. */
  predicate On(m: Matcher, key: string) { m.name == key && ReadAsWritten(m) }

  /** The value that the last matcher on the label gives; empty without one. */
  function Asked(ms: seq<Matcher>, key: string): string {
    if ms == [] then ""
    else
      var n := |ms| - 1;
      if On(ms[n], key) then ms[n].value.body else Asked(ms[..n], key)
  }

  ghost predicate OnlyEqualities(ms: seq<Matcher>) {
    forall i :: 0 <= i < |ms| && (On(ms[i], "waf_namespace") || On(ms[i], "waf_name")) ==> ms[i].op == "="
  }

  /** The WAF is one the matchers ask for. */
  predicate Fits(ms: seq<Matcher>, id: Identity) {
    && (Asked(ms, "waf_namespace") == "" || Asked(ms, "waf_namespace") == id.namespace)
    && (Asked(ms, "waf_name") == "" || Asked(ms, "waf_name") == id.name)
  }

  function Then(r: Result<Identity, Error>, m: Matcher): Result<Identity, Error> {
    if r.Err? then r else Wanted([m], r.value)
  }

  lemma {:induction false} WantedSnoc(ms: seq<Matcher>, m: Matcher, found: Identity)
    ensures Wanted(ms + [m], found) == Then(Wanted(ms, found), m)
    decreases |ms|
  {
    hide OnIdentity;
    if ms == [] {
      assert ms + [m] == [m];
    } else {
      assert (ms + [m])[1..] == ms[1..] + [m] && (ms + [m])[0] == ms[0];
      WantedSnoc(ms[1..], m, found);
      WantedSnoc(ms[1..], m, found.(namespace := ms[0].value.body));
      WantedSnoc(ms[1..], m, found.(name := ms[0].value.body));
    }
  }

  lemma WantedOne(m: Matcher, found: Identity)
    ensures var r := Wanted([m], found);
            && (r.Ok? <==> ((On(m, "waf_namespace") || On(m, "waf_name")) ==> m.op == "="))
            && (r.Ok? ==> r.value == Identity(if On(m, "waf_namespace") then m.value.body else found.namespace,
                                              if On(m, "waf_name") then m.value.body else found.name))
  {
    hide ReadAsWritten;
    assert [m][1..] == [];
  }

  lemma {:induction false} WantedIs(ms: seq<Matcher>)
    ensures var r := Wanted(ms, Identity("", ""));
            && (r.Ok? <==> OnlyEqualities(ms))
            && (r.Ok? ==> r.value == Identity(Asked(ms, "waf_namespace"), Asked(ms, "waf_name")))
  {
    hide Wanted, On;
    if ms == [] {
      NothingWanted();
    } else {
      var n := |ms| - 1;
      assert ms == ms[..n] + [ms[n]];
      WantedIs(ms[..n]);
      WantedSnoc(ms[..n], ms[n], Identity("", ""));
      if Wanted(ms[..n], Identity("", "")).Ok? { WantedOne(ms[n], Wanted(ms[..n], Identity("", "")).value); }
    }
  }

  lemma NothingWanted()
    ensures Wanted([], Identity("", "")) == Ok(Identity("", ""))
  {
  }

  lemma {:induction false} AllNarrow(s: Sel, ids: seq<Identity>)
    requires Usable(ids)
    ensures NarrowAll(s, ids).Ok?
  {
    hide Narrow;
    if |ids| > 0 { AllNarrow(s, ids[1..]); }
  }

  /** A selector is accepted if and only if its matchers on the identity labels are equalities and they ask
      for nothing, or for one of the WAFs: of each label the last matcher counts. */
  lemma {:induction false} AcceptedExactly(s: Sel, ids: seq<Identity>)
    requires Usable(ids)
    ensures var ms := MatchersOf(s);
            ScopeSel(s, ids).Ok? <==>
            && OnlyEqualities(ms)
            && ((Asked(ms, "waf_namespace") == "" && Asked(ms, "waf_name") == "") ||
                exists k :: 0 <= k < |ids| && Fits(ms, ids[k]))
  {
    hide OnlyEqualities, Asked, NarrowAll, Wanted, Usable;
    var ms := MatchersOf(s);
    WantedIs(ms);
    AllNarrow(s, ids);
    if k :| 0 <= k < |ids| && Fits(ms, ids[k]) {
      assert Admits(Identity(Asked(ms, "waf_namespace"), Asked(ms, "waf_name")), ids[k]);
    }
  }
}
