/** Adding the filters of WAFs to the HTTP connection manager of a listener: stubs that point at
    the extension store, in front of the router. */
module FilterInjection {
  import opened Text
  import opened EcdsStore

  datatype HttpFilter = HttpFilter(name: string, config: string)

  datatype AccessLog = OtelLog(cluster: string) | OtherLog(config: string)

  datatype Manager = Manager(filters: seq<HttpFilter>, logs: seq<AccessLog>)

  /** A network filter: a connection manager, or something else that is left alone. */
  datatype NetFilter = Http(name: string, manager: Manager) | Other(name: string)

  /** A WAF as it was built: the names of its filters, in order. */
  datatype WafConfig = WafConfig(extension: string, cluster: string, filters: seq<string>, telemetry: bool)

  const OTEL_CLUSTER := "kubewaf_otel"

  function Stub(name: string, cluster: string): HttpFilter { HttpFilter(name, cluster) }

  function StubsFor(names: seq<string>, cluster: string): (r: seq<HttpFilter>)
    ensures |r| == |names| && forall i :: 0 <= i < |r| ==> r[i] == Stub(names[i], cluster)
  {
    seq(|names|, i requires 0 <= i < |names| => Stub(names[i], cluster))
  }

  /** The stubs of a WAF; a missing one has none, one without filters has its own name. */
  function Stubs(p: Option<WafConfig>): seq<HttpFilter> {
    if p.None? then []
    else if p.value.filters == [] then [Stub(p.value.extension, p.value.cluster)]
    else StubsFor(p.value.filters, p.value.cluster)
  }

  function AllStubs(cfgs: seq<Option<WafConfig>>): seq<HttpFilter> {
    if cfgs == [] then [] else AllStubs(cfgs[..|cfgs| - 1]) + Stubs(cfgs[|cfgs| - 1])
  }

  function NamesOf(fs: seq<HttpFilter>): set<string> { set f | f in fs :: f.name }

  /** The stubs whose name is neither taken nor given to an earlier stub. */
  function Missing(taken: set<string>, stubs: seq<HttpFilter>): (r: seq<HttpFilter>) {
    if stubs == [] then []
    else
      var n := |stubs| - 1;
      var front := Missing(taken, stubs[..n]);
      if stubs[n].name in taken + NamesOf(front) then front else front + [stubs[n]]
  }

  predicate IsRouter(f: HttpFilter) { |f.name| >= 6 && f.name[|f.name| - 6..] == "router" }

  /** Where the first router stands, or the end. */
  function RouterAt(fs: seq<HttpFilter>, i: nat): (j: nat)
    requires i <= |fs|
    ensures i <= j <= |fs| && (forall k :: i <= k < j ==> !IsRouter(fs[k])) && (j < |fs| ==> IsRouter(fs[j]))
    decreases |fs| - i
  {
    if i < |fs| && !IsRouter(fs[i]) then RouterAt(fs, i + 1) else i
  }

  function Inserted(fs: seq<HttpFilter>, more: seq<HttpFilter>): seq<HttpFilter> {
    fs[..RouterAt(fs, 0)] + more + fs[RouterAt(fs, 0)..]
  }

  predicate WantsLog(cfgs: seq<Option<WafConfig>>) {
    exists i :: 0 <= i < |cfgs| && cfgs[i].Some? && cfgs[i].value.telemetry
  }

  predicate HasLog(m: Manager) { exists i :: 0 <= i < |m.logs| && m.logs[i].OtelLog? }

  function Injected(m: Manager, cfgs: seq<Option<WafConfig>>): Manager {
    Manager(Inserted(m.filters, Missing(NamesOf(m.filters), AllStubs(cfgs))),
            if WantsLog(cfgs) && !HasLog(m) then m.logs + [OtelLog(OTEL_CLUSTER)] else m.logs)
  }

  /** Only the first connection manager of a chain is looked at. */
  function FirstHttp(fs: seq<NetFilter>, i: nat): (j: nat)
    requires i <= |fs|
    ensures i <= j <= |fs| && (forall k :: i <= k < j ==> fs[k].Other?) && (j < |fs| ==> fs[j].Http?)
    decreases |fs| - i
  {
    if i < |fs| && fs[i].Other? then FirstHttp(fs, i + 1) else i
  }

  function ChainInjected(fs: seq<NetFilter>, cfgs: seq<Option<WafConfig>>): seq<NetFilter> {
    var i := FirstHttp(fs, 0);
    if i == |fs| then fs else fs[i := Http(fs[i].name, Injected(fs[i].manager, cfgs))]
  }

  // ----- names

  lemma NamesJoin(a: seq<HttpFilter>, b: seq<HttpFilter>)
    ensures NamesOf(a + b) == NamesOf(a) + NamesOf(b)
  {
    assert forall f :: f in a + b <==> f in a || f in b;
  }

  ghost predicate DistinctNames(fs: seq<HttpFilter>) {
    forall i, j :: 0 <= i < j < |fs| ==> fs[i].name != fs[j].name
  }

  /** New stubs have names of their own, and together with the taken ones they are all there. */
  lemma {:induction false} MissingExact(taken: set<string>, stubs: seq<HttpFilter>)
    ensures var r := Missing(taken, stubs);
            && DistinctNames(r) && NamesOf(r) == NamesOf(stubs) - taken
            && (forall f :: f in r ==> f in stubs)
  {
    if stubs != [] {
      var n := |stubs| - 1;
      MissingExact(taken, stubs[..n]);
      var front, s := Missing(taken, stubs[..n]), stubs[n];
      assert stubs == stubs[..n] + [s];
      NamesJoin(stubs[..n], [s]);
      NamesJoin(front, [s]);
      OneName(s);
      if s.name !in taken + NamesOf(front) {
        forall i | 0 <= i < |front| ensures front[i].name != s.name { assert front[i].name in NamesOf(front); }
      }
    }
  }

  lemma OneName(s: HttpFilter)
    ensures NamesOf([s]) == {s.name}
  {
    assert s in [s];
  }

  lemma InsertedNames(fs: seq<HttpFilter>, more: seq<HttpFilter>)
    ensures NamesOf(Inserted(fs, more)) == NamesOf(fs) + NamesOf(more)
  {
    hide NamesOf;
    var i := RouterAt(fs, 0);
    NamesJoin(fs[..i], more);
    NamesJoin(fs[..i] + more, fs[i..]);
    NamesJoin(fs[..i], fs[i..]);
    assert fs[..i] + fs[i..] == fs;
  }

  // ----- what injection does to a connection manager

  lemma NothingInserted(fs: seq<HttpFilter>)
    ensures Inserted(fs, []) == fs
  {
    var i := RouterAt(fs, 0);
    assert fs[..i] + [] + fs[i..] == fs;
  }

  lemma {:induction false} NothingMissing(taken: set<string>, stubs: seq<HttpFilter>)
    requires NamesOf(stubs) <= taken
    ensures Missing(taken, stubs) == []
  {
    hide NamesOf;
    MissingExact(taken, stubs);
    var r := Missing(taken, stubs);
    if r != [] { NameIn(r, 0); }
  }

  lemma NameIn(fs: seq<HttpFilter>, i: nat)
    requires i < |fs|
    ensures fs[i].name in NamesOf(fs)
  {
  }

  /** Injecting once more changes nothing. */
  lemma {:induction false} InjectIdempotent(m: Manager, cfgs: seq<Option<WafConfig>>)
    ensures Injected(Injected(m, cfgs), cfgs) == Injected(m, cfgs)
  {
    hide NamesOf, Missing, Inserted, AllStubs, WantsLog;
    var stubs, once := AllStubs(cfgs), Injected(m, cfgs);
    var more := Missing(NamesOf(m.filters), stubs);
    MissingExact(NamesOf(m.filters), stubs);
    InsertedNames(m.filters, more);
    NothingMissing(NamesOf(once.filters), stubs);
    NothingInserted(once.filters);
    if WantsLog(cfgs) && !HasLog(m) { assert once.logs[|m.logs|].OtelLog?; }
  }

  lemma {:induction false} ChainIdempotent(fs: seq<NetFilter>, cfgs: seq<Option<WafConfig>>)
    ensures ChainInjected(ChainInjected(fs, cfgs), cfgs) == ChainInjected(fs, cfgs)
  {
    hide Injected;
    var i, once := FirstHttp(fs, 0), ChainInjected(fs, cfgs);
    SameFirst(fs, once, 0);
    if i < |fs| { InjectIdempotent(fs[i].manager, cfgs); }
  }

  lemma {:induction false} SameFirst(a: seq<NetFilter>, b: seq<NetFilter>, i: nat)
    requires |a| == |b| && i <= |a| && forall k :: 0 <= k < |a| ==> a[k].Other? == b[k].Other?
    ensures FirstHttp(a, i) == FirstHttp(b, i)
    decreases |a| - i
  {
    if i < |a| && a[i].Other? { SameFirst(a, b, i + 1); }
  }

  /** The original filters stay, in order; what is added stands in one place, ahead of every
      router; it has the names of the WAFs' filters that were not there, each once. */
  lemma {:induction false} InjectShape(m: Manager, cfgs: seq<Option<WafConfig>>) returns (at: nat, more: seq<HttpFilter>)
    ensures at <= |m.filters| && Injected(m, cfgs).filters == m.filters[..at] + more + m.filters[at..]
    ensures forall k :: 0 <= k < at ==> !IsRouter(m.filters[k])
    ensures at < |m.filters| ==> IsRouter(m.filters[at])
    ensures DistinctNames(more) && NamesOf(more) == NamesOf(AllStubs(cfgs)) - NamesOf(m.filters)
    ensures forall f :: f in more ==> f in AllStubs(cfgs)
    ensures NamesOf(Injected(m, cfgs).filters) == NamesOf(m.filters) + NamesOf(AllStubs(cfgs))
  {
    hide NamesOf, Missing, AllStubs, WantsLog, HasLog, IsRouter;
    at := RouterAt(m.filters, 0);
    more := Missing(NamesOf(m.filters), AllStubs(cfgs));
    MissingExact(NamesOf(m.filters), AllStubs(cfgs));
    InsertedNames(m.filters, more);
  }

  // ----- the same, said of names

  /** The filter is Envoy's router, or one whose name ends like it. */
  ghost predicate RouterNamed(f: HttpFilter) { exists x: string :: f.name == x + "router" }

  lemma RouterMeans(f: HttpFilter)
    ensures IsRouter(f) <==> RouterNamed(f)
    ensures f.name == "envoy.filters.http.router" ==> RouterNamed(f)
  {
    var n := |f.name| - 6;
    if IsRouter(f) { assert f.name == f.name[..n] + "router"; }
    if RouterNamed(f) {
      var x: string :| f.name == x + "router";
      assert f.name[|x|..] == "router";
    }
    if f.name == "envoy.filters.http.router" { assert f.name == "envoy.filters.http." + "router"; }
  }

  /** The WAF has a filter of this name: one of its own, or, if it was built without, its extension. */
  predicate Offers(p: Option<WafConfig>, name: string) {
    p.Some? && (if p.value.filters == [] then name == p.value.extension else name in p.value.filters)
  }

  lemma OneOffers(p: Option<WafConfig>, f: HttpFilter)
    ensures f in Stubs(p) <==> p.Some? && Offers(p, f.name) && f.config == p.value.cluster
  {
    if p.Some? && p.value.filters != [] && f.name in p.value.filters && f.config == p.value.cluster {
      var i :| 0 <= i < |p.value.filters| && p.value.filters[i] == f.name;
      assert StubsFor(p.value.filters, p.value.cluster)[i] == f;
    }
  }

  lemma {:induction false} AllOffer(cfgs: seq<Option<WafConfig>>, f: HttpFilter)
    ensures f in AllStubs(cfgs) <==>
            exists i :: 0 <= i < |cfgs| && cfgs[i].Some? && Offers(cfgs[i], f.name) && f.config == cfgs[i].value.cluster
  {
    hide Stubs, Offers;
    if cfgs != [] {
      var n := |cfgs| - 1;
      AllOffer(cfgs[..n], f);
      OneOffers(cfgs[n], f);
      assert f in AllStubs(cfgs) <==> f in AllStubs(cfgs[..n]) || f in Stubs(cfgs[n]);
      assert forall i :: 0 <= i < n ==> cfgs[..n][i] == cfgs[i];
    }
  }

  /** Every filter of every WAF is there afterwards, once, ahead of every router, and points at its WAF's
      cluster if it was not there before; and there is a managed access log if a WAF asks for one. */
  lemma {:induction false} InjectedMeans(m: Manager, cfgs: seq<Option<WafConfig>>) returns (at: nat, more: seq<HttpFilter>)
    ensures at <= |m.filters| && Injected(m, cfgs).filters == m.filters[..at] + more + m.filters[at..]
    ensures (forall k :: 0 <= k < at ==> !RouterNamed(m.filters[k])) && (at < |m.filters| ==> RouterNamed(m.filters[at]))
    ensures forall name :: name in NamesOf(more) <==>
              (exists i :: 0 <= i < |cfgs| && Offers(cfgs[i], name)) && name !in NamesOf(m.filters)
    ensures forall f :: f in more ==>
              exists i :: 0 <= i < |cfgs| && cfgs[i].Some? && Offers(cfgs[i], f.name) && f.config == cfgs[i].value.cluster
    ensures Injected(m, cfgs).logs ==
            if (exists i :: 0 <= i < |cfgs| && cfgs[i].Some? && cfgs[i].value.telemetry) && (forall k :: 0 <= k < |m.logs| ==> m.logs[k].OtherLog?)
            then m.logs + [OtelLog("kubewaf_otel")] else m.logs
  {
    hide Missing, AllStubs, IsRouter, RouterNamed, Stubs, Offers;
    at, more := InjectShape(m, cfgs);
    forall f { RouterMeans(f); }
    forall f { AllOffer(cfgs, f); }
    forall name ensures name in NamesOf(AllStubs(cfgs)) <==> exists i :: 0 <= i < |cfgs| && Offers(cfgs[i], name) {
      if i :| 0 <= i < |cfgs| && Offers(cfgs[i], name) {
        OfferedBySome(cfgs[i], name);
        assert HttpFilter(name, cfgs[i].value.cluster) in AllStubs(cfgs);
      }
    }
  }

  lemma OfferedBySome(p: Option<WafConfig>, name: string)
    requires Offers(p, name)
    ensures p.Some?
  {
  }

  // ----- the challenge comes before the engine

  ghost predicate FirstOf(stubs: seq<HttpFilter>, i: nat) {
    i < |stubs| && forall k :: 0 <= k < i ==> stubs[k].name != stubs[i].name
  }

  /** A stub that is the first of its name, and whose name is not taken, is added. */
  lemma {:induction false} MissingAt(taken: set<string>, stubs: seq<HttpFilter>, i: nat) returns (a: nat)
    requires FirstOf(stubs, i) && stubs[i].name !in taken
    ensures a < |Missing(taken, stubs)| && Missing(taken, stubs)[a] == stubs[i]
    ensures a == |Missing(taken, stubs[..i])|
  {
    hide NamesOf;
    var n := |stubs| - 1;
    if i < n {
      assert stubs[..n][..i] == stubs[..i] && stubs[..n][i] == stubs[i];
      a := MissingAt(taken, stubs[..n], i);
    } else {
      MissingExact(taken, stubs[..n]);
      NameNew(stubs);
      a := |Missing(taken, stubs[..n])|;
    }
  }

  lemma NameNew(stubs: seq<HttpFilter>)
    requires stubs != [] && FirstOf(stubs, |stubs| - 1)
    ensures stubs[|stubs| - 1].name !in NamesOf(stubs[..|stubs| - 1])
  {
  }

  /** New stubs keep the order in which the WAFs list them. */
  lemma {:induction false} MissingInOrder(taken: set<string>, stubs: seq<HttpFilter>, i: nat, j: nat) returns (a: nat, b: nat)
    requires i < j && FirstOf(stubs, i) && FirstOf(stubs, j) && stubs[i].name !in taken && stubs[j].name !in taken
    ensures a < b < |Missing(taken, stubs)| && Missing(taken, stubs)[a] == stubs[i] && Missing(taken, stubs)[b] == stubs[j]
  {
    hide Missing;
    a := MissingAt(taken, stubs, i);
    b := MissingAt(taken, stubs, j);
    assert stubs[..j][..i] == stubs[..i] && stubs[..j][i] == stubs[i];
    var c := MissingAt(taken, stubs[..j], i);
  }

  /** A WAF as the build makes it: its engine, after its challenge if it has one. */
  ghost predicate BuiltFor(p: WafConfig, w: Waf) {
    Plain(w) && (p.filters == [Ext(w)] || p.filters == [ChallengeExt(w), Ext(w)])
  }

  ghost predicate AllBuilt(cfgs: seq<Option<WafConfig>>, wafs: seq<Waf>) {
    && |cfgs| == |wafs| && (forall i, j :: 0 <= i < j < |wafs| ==> wafs[i] != wafs[j])
    && forall i :: 0 <= i < |cfgs| ==> cfgs[i].Some? && BuiltFor(cfgs[i].value, wafs[i])
  }

  /** Stubs of other WAFs have other names. */
  lemma {:induction false} OtherNames(cfgs: seq<Option<WafConfig>>, wafs: seq<Waf>, w: Waf)
    requires AllBuilt(cfgs, wafs) && Plain(w) && w !in wafs
    ensures forall k :: 0 <= k < |AllStubs(cfgs)| ==> AllStubs(cfgs)[k].name != Ext(w) && AllStubs(cfgs)[k].name != ChallengeExt(w)
  {
    hide Ext, ChallengeExt, Plain;
    if cfgs != [] {
      var n := |cfgs| - 1;
      OtherNames(cfgs[..n], wafs[..n], w);
      ExtUnder(wafs[n], w);
      ChallengeUnder(wafs[n], w);
      ChallengeUnder(w, wafs[n]);
      assert BuiltFor(cfgs[n].value, wafs[n]);
      assert Under(Ext(wafs[n]), Ext(w)) || Ext(wafs[n]) != Ext(w);
    }
  }

  lemma {:induction false} StubsAt(cfgs: seq<Option<WafConfig>>, n: nat)
    requires n < |cfgs|
    ensures var off := |AllStubs(cfgs[..n])|;
            && off + |Stubs(cfgs[n])| <= |AllStubs(cfgs)|
            && (forall k :: 0 <= k < off ==> AllStubs(cfgs)[k] == AllStubs(cfgs[..n])[k])
            && forall k :: 0 <= k < |Stubs(cfgs[n])| ==> AllStubs(cfgs)[off + k] == Stubs(cfgs[n])[k]
  {
    hide Stubs;
    var m := |cfgs| - 1;
    if n < m {
      assert cfgs[..m][..n] == cfgs[..n] && cfgs[..m][n] == cfgs[n];
      StubsAt(cfgs[..m], n);
    }
  }

  lemma {:induction false} OwnStubs(cfgs: seq<Option<WafConfig>>, wafs: seq<Waf>, n: nat) returns (off: nat)
    requires AllBuilt(cfgs, wafs) && n < |cfgs| && cfgs[n].value.filters == [ChallengeExt(wafs[n]), Ext(wafs[n])]
    ensures var stubs := AllStubs(cfgs);
            && FirstOf(stubs, off) && FirstOf(stubs, off + 1)
            && stubs[off].name == ChallengeExt(wafs[n]) && stubs[off + 1].name == Ext(wafs[n])
  {
    hide Ext, ChallengeExt, Plain, AllStubs;
    var w := wafs[n];
    off := |AllStubs(cfgs[..n])|;
    StubsAt(cfgs, n);
    assert BuiltFor(cfgs[n].value, w);
    OtherNames(cfgs[..n], wafs[..n], w);
    ChallengeUnder(w, w);
    var own := Stubs(cfgs[n]);
    assert own[0].name == ChallengeExt(w) && own[1].name == Ext(w);
    assert AllStubs(cfgs)[off + 0] == own[0] && AllStubs(cfgs)[off + 1] == own[1];
  }

  /** On a listener that holds neither of a WAF's stubs, its challenge is placed before its engine. */
  lemma {:induction false} ChallengeFirst(m: Manager, cfgs: seq<Option<WafConfig>>, wafs: seq<Waf>, n: nat)
    returns (a: nat, b: nat)
    requires AllBuilt(cfgs, wafs) && n < |cfgs| && cfgs[n].value.filters == [ChallengeExt(wafs[n]), Ext(wafs[n])]
    requires Ext(wafs[n]) !in NamesOf(m.filters) && ChallengeExt(wafs[n]) !in NamesOf(m.filters)
    ensures var fs := Injected(m, cfgs).filters;
            a < b < |fs| && fs[a].name == ChallengeExt(wafs[n]) && fs[b].name == Ext(wafs[n])
  {
    hide Ext, ChallengeExt, Plain, NamesOf, Missing, IsRouter, WantsLog, HasLog, AllStubs, FirstOf, AllBuilt;
    var off := OwnStubs(cfgs, wafs, n);
    a, b := MissingInOrder(NamesOf(m.filters), AllStubs(cfgs), off, off + 1);
    var at := RouterAt(m.filters, 0);
    a, b := at + a, at + b;
  }

  // ----- the injection as it runs

  class FilterChain {
    var filters: seq<NetFilter>
  }

  method NewStubs(m: Manager, cfgs: seq<Option<WafConfig>>) returns (r: seq<HttpFilter>)
    ensures r == Missing(NamesOf(m.filters), AllStubs(cfgs))
  {
    hide NamesOf, Stubs;
    var taken := NamesOf(m.filters);
    var existing := taken;
    r := [];
    NoNames();
    for i := 0 to |cfgs|
      invariant r == Missing(taken, AllStubs(cfgs[..i])) && existing == taken + NamesOf(r)
    {
      var stubs, before := Stubs(cfgs[i]), AllStubs(cfgs[..i]);
      assert before + stubs[..0] == before;
      for j := 0 to |stubs|
        invariant r == Missing(taken, before + stubs[..j]) && existing == taken + NamesOf(r)
      {
        assert (before + stubs[..j + 1])[..|before| + j] == before + stubs[..j];
        if stubs[j].name !in existing {
          NamesJoin(r, [stubs[j]]);
          OneName(stubs[j]);
          r := r + [stubs[j]];
          existing := existing + {stubs[j].name};
        }
      }
      assert before + stubs[..|stubs|] == before + stubs;
      assert cfgs[..i + 1][..i] == cfgs[..i];
    }
    assert cfgs[..|cfgs|] == cfgs;
  }

  lemma NoNames()
    ensures NamesOf([]) == {}
  {
  }

  method InsertBeforeRouter(fs: seq<HttpFilter>, more: seq<HttpFilter>) returns (r: seq<HttpFilter>)
    ensures r == Inserted(fs, more)
  {
    r := [];
    var inserted := false;
    var at := RouterAt(fs, 0);
    for i := 0 to |fs|
      invariant inserted == (i > at)
      invariant r == if i <= at then fs[..i] else fs[..at] + more + fs[at..i]
    {
      if !inserted && IsRouter(fs[i]) {
        r := r + more;
        inserted := true;
      }
      r := r + [fs[i]];
    }
    if !inserted { r := r + more; }
  }

  method InjectIntoFilterChain(fc: FilterChain, cfgs: seq<Option<WafConfig>>)
    modifies fc
    ensures fc.filters == ChainInjected(old(fc.filters), cfgs)
  {
    hide Injected;
    var i := 0;
    while i < |fc.filters|
      invariant 0 <= i <= |fc.filters| && fc.filters == old(fc.filters)
      invariant FirstHttp(fc.filters, 0) == FirstHttp(fc.filters, i)
    {
      if fc.filters[i].Http? {
        var f := fc.filters[i];
        var m := InjectManager(f.manager, cfgs);
        fc.filters := fc.filters[i := Http(f.name, m)];
        return;
      }
      i := i + 1;
    }
  }

  method InjectManager(m: Manager, cfgs: seq<Option<WafConfig>>) returns (r: Manager)
    ensures r == Injected(m, cfgs)
  {
    hide Missing, NamesOf, AllStubs, Inserted, HasLog;
    var more := NewStubs(m, cfgs);
    var needLog := false;
    for i := 0 to |cfgs|
      invariant needLog == exists k :: 0 <= k < i && cfgs[k].Some? && cfgs[k].value.telemetry
    {
      if cfgs[i].Some? && cfgs[i].value.telemetry { needLog := true; }
    }
    NothingInserted(m.filters);
    if more == [] && (!needLog || HasLog(m)) { return m; }
    r := m;
    if more != [] {
      var fs := InsertBeforeRouter(m.filters, more);
      r := r.(filters := fs);
    }
    if needLog && !HasLog(m) { r := r.(logs := r.logs + [OtelLog(OTEL_CLUSTER)]); }
  }

  class Listener {
    var defaultChain: FilterChain?
    var chains: seq<FilterChain>
  }

  /** Every chain of the listener, even one it holds twice, gets the filters once. */
  method InjectFilters(l: Listener, cfgs: seq<Option<WafConfig>>)
    modifies if l.defaultChain == null then {} else {l.defaultChain}, l.chains
    ensures l.defaultChain != null ==> l.defaultChain.filters == ChainInjected(old(l.defaultChain.filters), cfgs)
    ensures forall fc :: fc in l.chains ==> fc.filters == ChainInjected(old(fc.filters), cfgs)
  {
    hide ChainInjected;
    ghost var done: set<FilterChain> := {};
    if l.defaultChain != null {
      InjectIntoFilterChain(l.defaultChain, cfgs);
      done := {l.defaultChain};
    }
    var chains := l.chains;
    for i := 0 to |chains|
      invariant l.defaultChain == old(l.defaultChain) && chains == l.chains == old(l.chains)
      invariant l.defaultChain != null ==> l.defaultChain in done
      invariant forall k :: 0 <= k < i ==> chains[k] in done
      invariant forall fc :: fc in done ==> fc in chains || fc == l.defaultChain
      invariant forall fc :: fc in done ==> fc.filters == ChainInjected(old(fc.filters), cfgs)
      invariant forall fc :: fc in chains && fc !in done ==> fc.filters == old(fc.filters)
    {
      if chains[i] in done { ChainIdempotent(old(chains[i].filters), cfgs); }
      InjectIntoFilterChain(chains[i], cfgs);
      done := done + {chains[i]};
    }
  }

  /** The first connection manager of a chain gets the filters, and nothing else changes. */
  lemma ChainMeans(fs: seq<NetFilter>, cfgs: seq<Option<WafConfig>>, i: nat)
    requires i <= |fs| && (forall k :: 0 <= k < i ==> fs[k].Other?) && (i < |fs| ==> fs[i].Http?)
    ensures i == |fs| ==> ChainInjected(fs, cfgs) == fs
    ensures i < |fs| ==> ChainInjected(fs, cfgs) == fs[i := Http(fs[i].name, Injected(fs[i].manager, cfgs))]
  {
    hide Injected;
    assert FirstHttp(fs, 0) == i;
  }
}
