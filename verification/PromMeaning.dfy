/** What a query means over a set of labelled series, and what scoping does to it. */
module PromMeaning {
  import opened Text
  import opened PromLexer
  import opened PromScope
  import opened PromTree
  import opened PromScopeTree

  /** A series: its labels (the metric name is one of them) and its timestamped points. */
  datatype Series = Series(labels: map<string, string>, points: seq<(int, real)>)

  datatype Value =
    | Vector(samples: set<Series>)
    | Matrix(series: set<Series>, range: string)
    | Literal(text: string)
    | Opaque(n: int)

  /** The parts of PromQL that scoping must not depend on: how a string literal is read,
      when a pattern matches, and what functions, aggregations and operators compute. */
  datatype World = World(
    unquote: string -> string,
    regex: (string, string) -> bool,
    apply: (string, seq<Value>) -> Value)

  ghost function Label(x: Series, name: string): string {
    if name in x.labels then x.labels[name] else ""
  }

  ghost predicate Holds(w: World, m: Matcher, x: Series) {
    var have, want := Label(x, m.name), w.unquote(m.value.body);
    if m.op == "=" then have == want
    else if m.op == "!=" then have != want
    else if m.op == "=~" then w.regex(want, have)
    else !w.regex(want, have)
  }

  ghost predicate AllHold(w: World, ms: seq<Matcher>, x: Series) {
    forall i :: 0 <= i < |ms| ==> Holds(w, ms[i], x)
  }

  ghost predicate Picks(w: World, s: Sel, x: Series) {
    (s.metric != "" ==> Label(x, "__name__") == s.metric) && AllHold(w, MatchersOf(s), x)
  }

  ghost predicate Member(x: Series, id: Identity) {
    Label(x, "waf_namespace") == id.namespace && Label(x, "waf_name") == id.name
  }

  /** The identity survives Go's quoting and PromQL's reading of it. */
  ghost predicate Readable(w: World, id: Identity) {
    w.unquote(Escape(id.namespace)) == id.namespace && w.unquote(Escape(id.name)) == id.name
  }

  // ----- one selector

  ghost function Own(id: Identity, key: string): string {
    if key == "waf_namespace" then id.namespace else id.name
  }

  /** Every identity matcher that scoping drops asks for the WAF's own value. */
  ghost predicate OwnIdentity(w: World, ms: seq<Matcher>, id: Identity) {
    forall i :: 0 <= i < |ms| && OnIdentity(ms[i]) ==> w.unquote(ms[i].value.body) == Own(id, ms[i].name)
  }

  ghost predicate Equalities(ms: seq<Matcher>) {
    forall i :: 0 <= i < |ms| && OnIdentity(ms[i]) ==> ms[i].op == "="
  }

  lemma {:induction false} WantedEqualities(ms: seq<Matcher>, found: Identity)
    requires Wanted(ms, found).Ok?
    ensures Equalities(ms)
    decreases |ms|
  {
    hide OnIdentity;
    if |ms| > 0 {
      var next := if !OnIdentity(ms[0]) then found
                  else if ms[0].name == "waf_namespace" then found.(namespace := ms[0].value.body)
                  else found.(name := ms[0].value.body);
      WantedEqualities(ms[1..], next);
      forall i | 0 <= i < |ms| && OnIdentity(ms[i]) ensures ms[i].op == "=" {
        if i > 0 { assert ms[i] == ms[1..][i - 1]; }
      }
    }
  }

  lemma HoldCons(w: World, m: Matcher, ms: seq<Matcher>, x: Series)
    ensures AllHold(w, [m] + ms, x) <==> Holds(w, m, x) && AllHold(w, ms, x)
  {
    hide Holds;
    var all := [m] + ms;
    assert all[0] == m && forall i :: 0 <= i < |ms| ==> ms[i] == all[i + 1];
  }

  /** The matchers that scoping keeps all hold. */
  ghost predicate KeptHold(w: World, ms: seq<Matcher>, x: Series) {
    forall i :: 0 <= i < |ms| && !OnIdentity(ms[i]) ==> Holds(w, ms[i], x)
  }

  lemma KeptCons(w: World, ms: seq<Matcher>, x: Series)
    requires |ms| > 0
    ensures KeptHold(w, ms, x) <==> (OnIdentity(ms[0]) || Holds(w, ms[0], x)) && KeptHold(w, ms[1..], x)
  {
    hide Holds, OnIdentity;
    var rest := ms[1..];
    assert forall i :: 0 <= i < |rest| ==> rest[i] == ms[i + 1];
    assert forall i :: 0 < i < |ms| ==> ms[i] == rest[i - 1];
  }

  lemma {:induction false} OthersHold(w: World, ms: seq<Matcher>, x: Series)
    ensures AllHold(w, Others(ms), x) <==> KeptHold(w, ms, x)
  {
    hide OnIdentity, Holds, AllHold, KeptHold;
    if |ms| > 0 {
      OthersHold(w, ms[1..], x);
      KeptCons(w, ms, x);
      HoldCons(w, ms[0], Others(ms[1..]), x);
    } else {
      NoneHold(w, x);
    }
  }

  lemma NoneHold(w: World, x: Series)
    ensures AllHold(w, [], x) && KeptHold(w, [], x)
  {
  }

  lemma {:induction false} ListingFlat(m: Matcher, rest: seq<Matcher>)
    ensures Flatten(Listing(m, rest)) == [m] + rest
    decreases |rest|
  {
    if |rest| > 0 {
      ListingFlat(rest[0], rest[1..]);
      assert [rest[0]] + rest[1..] == rest;
    }
  }

  /** A narrowed selector asks for the WAF's labels and for everything it kept. */
  lemma NarrowPicks(w: World, s: Sel, id: Identity, x: Series)
    requires Readable(w, id)
    ensures Picks(w, Narrow(s, id), x) <==>
            (s.metric != "" ==> Label(x, "__name__") == s.metric) && Member(x, id) && AllHold(w, Others(MatchersOf(s)), x)
  {
    hide Others, MatchersOf, Escape;
    var a, b, os := Equals("waf_namespace", id.namespace), Equals("waf_name", id.name), Others(MatchersOf(s));
    ListingFlat(a, [b] + os);
    NarrowMatchers(s, id);
    var all := [a] + ([b] + os);
    assert all[0] == a && all[1] == b;
    assert forall i :: 0 <= i < |os| ==> os[i] == all[i + 2];
    assert forall i :: 2 <= i < |all| ==> all[i] == os[i - 2];
    assert Holds(w, a, x) && Holds(w, b, x) <==> Member(x, id);
  }

  lemma NarrowMatchers(s: Sel, id: Identity)
    ensures MatchersOf(Narrow(s, id)) ==
            Flatten(Listing(Equals("waf_namespace", id.namespace), [Equals("waf_name", id.name)] + Others(MatchersOf(s))))
    ensures Narrow(s, id).metric == s.metric
  {
    hide Others, Listing, Flatten, Equals;
  }

  /** For each series: an accepted selector, once narrowed to a WAF, agrees with "the original
      picks it and it belongs to the WAF" exactly when every identity matcher it gave was the
      WAF's own, or the narrowed selector does not pick the series at all. */
  lemma NarrowExact(w: World, s: Sel, id: Identity, x: Series)
    requires Readable(w, id) && ScopeSel(s, [id]).Ok?
    ensures (Picks(w, Narrow(s, id), x) <==> Picks(w, s, x) && Member(x, id))
            <==> (OwnIdentity(w, MatchersOf(s), id) || !Picks(w, Narrow(s, id), x))
  {
    hide MatchersOf, Others, Readable, Narrow, OnIdentity, ReadAsWritten;
    var ms := MatchersOf(s);
    WantedEqualities(ms, Identity("", ""));
    NarrowPicks(w, s, id, x);
    OthersHold(w, ms, x);
    if Picks(w, Narrow(s, id), x) {
      if OwnIdentity(w, ms, id) {
        forall i | 0 <= i < |ms| ensures Holds(w, ms[i], x) {
          if OnIdentity(ms[i]) { IdentityHolds(w, ms[i], id, x); }
        }
      } else {
        var i :| 0 <= i < |ms| && OnIdentity(ms[i]) && w.unquote(ms[i].value.body) != Own(id, ms[i].name);
        IdentityHolds(w, ms[i], id, x);
      }
    }
  }

  /** What is left of the selector once its identity matchers are dropped picks the series. */
  ghost predicate Remains(w: World, s: Sel, x: Series) {
    (s.metric != "" ==> Label(x, "__name__") == s.metric) && AllHold(w, Others(MatchersOf(s)), x)
  }

  /** A series of the WAF is picked by the original exactly when what is kept picks it and the
      dropped matchers ask for the WAF itself. */
  lemma MemberPicked(w: World, s: Sel, id: Identity, x: Series)
    requires Equalities(MatchersOf(s)) && Member(x, id)
    ensures Picks(w, s, x) <==> Remains(w, s, x) && OwnIdentity(w, MatchersOf(s), id)
  {
    hide MatchersOf, Others, OnIdentity, ReadAsWritten, Holds;
    var ms := MatchersOf(s);
    OthersHold(w, ms, x);
    forall i | 0 <= i < |ms| && OnIdentity(ms[i])
      ensures Holds(w, ms[i], x) <==> w.unquote(ms[i].value.body) == Own(id, ms[i].name)
    {
      IdentityHolds(w, ms[i], id, x);
    }
  }

  lemma IdentityHolds(w: World, m: Matcher, id: Identity, x: Series)
    requires OnIdentity(m) && m.op == "=" && Member(x, id)
    ensures Holds(w, m, x) <==> w.unquote(m.value.body) == Own(id, m.name)
  {
  }

  /** Acceptance makes every identity matcher the WAF's own when each label is given at most
      once, with a value that is not empty and is read as it is written. */
  lemma OnceIsOwn(w: World, s: Sel, id: Identity)
    requires ScopeSel(s, [id]).Ok?
    requires var ms := MatchersOf(s);
             forall i, j :: 0 <= i < j < |ms| && OnIdentity(ms[i]) && OnIdentity(ms[j]) ==> ms[i].name != ms[j].name
    requires var ms := MatchersOf(s);
             forall i :: 0 <= i < |ms| && OnIdentity(ms[i]) ==> ms[i].value.body != "" && w.unquote(ms[i].value.body) == ms[i].value.body
    ensures OwnIdentity(w, MatchersOf(s), id)
  {
    hide OnIdentity, MatchersOf;
    var ms := MatchersOf(s);
    var want := Wanted(ms, Identity("", "")).value;
    forall i | 0 <= i < |ms| && OnIdentity(ms[i]) ensures w.unquote(ms[i].value.body) == Own(id, ms[i].name) {
      WantedAt(ms, Identity("", ""), i);
    }
  }

  /** A label given once sets the wanted identity. */
  lemma {:induction false} WantedAt(ms: seq<Matcher>, found: Identity, i: nat)
    requires i < |ms| && OnIdentity(ms[i]) && Wanted(ms, found).Ok?
    requires forall j :: i < j < |ms| && OnIdentity(ms[j]) ==> ms[j].name != ms[i].name
    ensures Own(Wanted(ms, found).value, ms[i].name) == ms[i].value.body && IsIdentityKey(ms[i].name)
    decreases |ms|
  {
    var next := Found(ms[0], found);
    WantedStep(ms, found);
    if i == 0 {
      assert OnIdentity(ms[0]) ==> IsIdentityKey(ms[0].name);
      forall j | 0 <= j < |ms[1..]| && OnIdentity(ms[1..][j]) ensures ms[1..][j].name != ms[0].name {
        assert ms[1..][j] == ms[j + 1];
      }
      WantedKeeps(ms[1..], next, ms[0].name);
    } else {
      assert ms[1..][i - 1] == ms[i];
      forall j | i - 1 < j < |ms[1..]| && OnIdentity(ms[1..][j]) ensures ms[1..][j].name != ms[i].name {
        assert ms[1..][j] == ms[j + 1];
      }
      WantedAt(ms[1..], next, i - 1);
    }
  }

  ghost function Found(m: Matcher, found: Identity): Identity {
    if !OnIdentity(m) then found
    else if m.name == "waf_namespace" then found.(namespace := m.value.body)
    else found.(name := m.value.body)
  }

  lemma WantedStep(ms: seq<Matcher>, found: Identity)
    requires |ms| > 0 && Wanted(ms, found).Ok?
    ensures Wanted(ms, found) == Wanted(ms[1..], Found(ms[0], found))
  {
    hide OnIdentity;
  }

  /** A label that is not given keeps what was found before. */
  lemma {:induction false} WantedKeeps(ms: seq<Matcher>, found: Identity, key: string)
    requires Wanted(ms, found).Ok? && IsIdentityKey(key)
    requires forall j :: 0 <= j < |ms| && OnIdentity(ms[j]) ==> ms[j].name != key
    ensures Own(Wanted(ms, found).value, key) == Own(found, key)
    decreases |ms|
  {
    if |ms| > 0 {
      WantedStep(ms, found);
      forall j | 0 <= j < |ms[1..]| && OnIdentity(ms[1..][j]) ensures ms[1..][j].name != key {
        assert ms[1..][j] == ms[j + 1];
      }
      WantedKeeps(ms[1..], Found(ms[0], found), key);
    }
  }
}
