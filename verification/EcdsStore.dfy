/** The store of extension configurations: filters of every WAF under string names, published as
    numbered snapshots. For names without a slash it is a map from WAFs to their filters. */
module EcdsStore {
  import opened Text

  type Config = string  // a packed filter configuration

  datatype Waf = Waf(ns: string, name: string)

  /** A filter as built, with what publishing demands of it. */
  datatype Filter = Filter(url: string, sha: string, config: Config)

  datatype Portable = Portable(waf: Waf, challenge: Option<Filter>, engine: Filter)

  // ----- names

  function Ext(w: Waf): string { "kubewaf/" + (w.ns + ("/" + w.name)) }

  function ChallengeExt(w: Waf): string { "kubewaf/" + (w.ns + ("/" + (w.name + "/challenge"))) }

  predicate Under(name: string, ext: string) { name == ext || HasPrefix(name, ext + "/") }

  /** Kubernetes names hold no slash. */
  predicate Plain(w: Waf) { '/' !in w.ns && '/' !in w.name }

  /** As Envoy is told them. */
  lemma NamesInEnvoy()
    ensures Ext(Waf("default", "shop")) == "kubewaf/default/shop"
    ensures ChallengeExt(Waf("default", "shop")) == "kubewaf/default/shop/challenge"
  {
  }

  lemma SlashSplits(a: string, b: string, c: string, d: string)
    requires '/' !in a && '/' !in c && a + ("/" + b) == c + ("/" + d)
    ensures a == c && b == d
  {
    var s, t := a + ("/" + b), c + ("/" + d);
    assert s[|a|] == '/' && t[|c|] == '/';
    assert forall i :: 0 <= i < |c| ==> t[i] == c[i] != '/';
    assert forall i :: 0 <= i < |a| ==> s[i] == a[i] != '/';
    assert |a| == |c|;
    assert s[..|a|] == a && t[..|c|] == c;
    assert s[|a| + 1..] == b && t[|c| + 1..] == d;
  }

  lemma NoSlash(a: string, b: string)
    ensures '/' in a + ("/" + b)
  {
    assert (a + ("/" + b))[|a|] == '/';
  }

  lemma SamePrefix(p: string, a: string, b: string)
    requires p + a == p + b
    ensures a == b
  {
    assert (p + a)[|p|..] == a && (p + b)[|p|..] == b;
  }

  /** What follows the prefix, spelled so that slashes line up. */
  lemma PrefixTail(name: string, w: Waf) returns (rest: string)
    requires HasPrefix(name, Ext(w) + "/")
    ensures name == "kubewaf/" + (w.ns + ("/" + (w.name + ("/" + rest))))
  {
    var p := Ext(w) + "/";
    rest := name[|p|..];
    assert name == p + rest;
    assert p + rest == "kubewaf/" + (w.ns + ("/" + (w.name + ("/" + rest))));
  }

  lemma ExtUnder(x: Waf, w: Waf)
    requires Plain(x) && Plain(w)
    ensures Under(Ext(x), Ext(w)) <==> x == w
  {
    if Ext(x) == Ext(w) {
      SamePrefix("kubewaf/", x.ns + ("/" + x.name), w.ns + ("/" + w.name));
      SlashSplits(x.ns, x.name, w.ns, w.name);
    } else if HasPrefix(Ext(x), Ext(w) + "/") {
      var rest := PrefixTail(Ext(x), w);
      SamePrefix("kubewaf/", x.ns + ("/" + x.name), w.ns + ("/" + (w.name + ("/" + rest))));
      SlashSplits(x.ns, x.name, w.ns, w.name + ("/" + rest));
      NoSlash(w.name, rest);
    }
  }

  lemma ChallengeUnder(x: Waf, w: Waf)
    requires Plain(x) && Plain(w)
    ensures Under(ChallengeExt(x), Ext(w)) <==> x == w
    ensures ChallengeExt(x) != Ext(w)
    ensures ChallengeExt(x) == ChallengeExt(w) ==> x == w
  {
    assert x.name + "/challenge" == x.name + ("/" + "challenge");
    if ChallengeExt(x) == Ext(w) {
      SamePrefix("kubewaf/", x.ns + ("/" + (x.name + "/challenge")), w.ns + ("/" + w.name));
      SlashSplits(x.ns, x.name + "/challenge", w.ns, w.name);
      NoSlash(x.name, "challenge");
    }
    if HasPrefix(ChallengeExt(x), Ext(w) + "/") { ChallengePrefix(x, w); }
    if x == w {
      assert ChallengeExt(x) == (Ext(w) + "/") + "challenge";
      Cut(Ext(w) + "/", "challenge");
    }
    assert HasPrefix(ChallengeExt(w), Ext(w) + "/") by {
      assert ChallengeExt(w) == (Ext(w) + "/") + "challenge";
      Cut(Ext(w) + "/", "challenge");
    }
  }

  lemma ChallengePrefix(x: Waf, w: Waf)
    requires Plain(x) && Plain(w) && HasPrefix(ChallengeExt(x), Ext(w) + "/")
    ensures x == w
  {
    var rest := PrefixTail(ChallengeExt(x), w);
    SamePrefix("kubewaf/", x.ns + ("/" + (x.name + "/challenge")), w.ns + ("/" + (w.name + ("/" + rest))));
    SlashSplits(x.ns, x.name + "/challenge", w.ns, w.name + ("/" + rest));
    assert x.name + "/challenge" == x.name + ("/" + "challenge");
    SlashSplits(x.name, "challenge", w.name, rest);
  }

  // ----- operations on the string-keyed store

  type Store = map<string, Config>

  function Without(s: Store, ext: string): Store { map k | k in s && !Under(k, ext) :: s[k] }

  function WithFilters(s: Store, p: Portable): Store {
    var t := if p.challenge.None? then s else s[ChallengeExt(p.waf) := p.challenge.value.config];
    t[Ext(p.waf) := p.engine.config]
  }

  datatype Op = Put(portable: Portable) | Drop(waf: Waf)

  function Of(op: Op): Waf { match op case Put(p) => p.waf case Drop(w) => w }

  function Apply(s: Store, op: Op): Store {
    match op
    case Put(p) => WithFilters(Without(s, Ext(p.waf)), p)
    case Drop(w) => Without(s, Ext(w))
  }

  // ----- the store as a map from WAFs to their filters

  datatype Filters = Filters(engine: Config, challenge: Option<Config>)

  function FiltersOf(p: Portable): Filters {
    Filters(p.engine.config, if p.challenge.None? then None else Some(p.challenge.value.config))
  }

  function Get(s: Store, k: string): Option<Config> { if k in s then Some(s[k]) else None }

  ghost predicate Refines(s: Store, m: map<Waf, Filters>) {
    && (forall w :: w in m ==> Plain(w) && Get(s, Ext(w)) == Some(m[w].engine) && Get(s, ChallengeExt(w)) == m[w].challenge)
    && forall k :: k in s ==> exists w :: w in m && (k == Ext(w) || k == ChallengeExt(w))
  }

  function ApplyMap(m: map<Waf, Filters>, op: Op): map<Waf, Filters> {
    match op
    case Put(p) => m[p.waf := FiltersOf(p)]
    case Drop(w) => m - {w}
  }

  lemma RefinesDrop(s: Store, m: map<Waf, Filters>, w: Waf)
    requires Refines(s, m) && Plain(w)
    ensures Refines(Without(s, Ext(w)), m - {w})
  {
    hide Ext, ChallengeExt, Under, Plain;
    forall x | x in m - {w}
      ensures Get(Without(s, Ext(w)), Ext(x)) == Some(m[x].engine)
      ensures Get(Without(s, Ext(w)), ChallengeExt(x)) == m[x].challenge
    {
      ExtUnder(x, w);
      ChallengeUnder(x, w);
    }
    forall k | k in Without(s, Ext(w))
      ensures exists x :: x in m - {w} && (k == Ext(x) || k == ChallengeExt(x))
    {
      var x :| x in m && (k == Ext(x) || k == ChallengeExt(x));
      ExtUnder(x, w);
      ChallengeUnder(x, w);
      assert x in m - {w};
    }
  }

  lemma NothingUnder(s: Store, w: Waf, k: string)
    requires k in Without(s, Ext(w))
    ensures !Under(k, Ext(w))
  {
  }

  lemma RefinesPut(s: Store, m: map<Waf, Filters>, p: Portable)
    requires Refines(s, m) && Plain(p.waf) && p.waf !in m && (forall k :: k in s ==> !Under(k, Ext(p.waf)))
    ensures Refines(WithFilters(s, p), m[p.waf := FiltersOf(p)])
  {
    hide Ext, ChallengeExt, Under, Plain;
    var w := p.waf;
    ChallengeUnder(w, w);
    ExtUnder(w, w);
    forall x | x in m
      ensures Get(WithFilters(s, p), Ext(x)) == Some(m[x].engine)
      ensures Get(WithFilters(s, p), ChallengeExt(x)) == m[x].challenge
    {
      ExtUnder(x, w);
      ChallengeUnder(x, w);
      ChallengeUnder(w, x);
    }
    forall k | k in WithFilters(s, p)
      ensures exists x :: x in m[w := FiltersOf(p)] && (k == Ext(x) || k == ChallengeExt(x))
    {
      if k in s {
        var x :| x in m && (k == Ext(x) || k == ChallengeExt(x));
        assert x in m[w := FiltersOf(p)];
      } else {
        assert w in m[w := FiltersOf(p)];
      }
    }
  }

  /** Every operation on the store is the same operation on the map: it touches one WAF only. */
  lemma ApplyRefines(s: Store, m: map<Waf, Filters>, op: Op)
    requires Refines(s, m) && Plain(Of(op))
    ensures Refines(Apply(s, op), ApplyMap(m, op))
  {
    hide Refines, WithFilters, Plain;
    var w := Of(op);
    RefinesDrop(s, m, w);
    if op.Put? {
      forall k | k in Without(s, Ext(w)) ensures !Under(k, Ext(w)) { NothingUnder(s, w, k); }
      RefinesPut(Without(s, Ext(w)), m - {w}, op.portable);
      assert (m - {w})[w := FiltersOf(op.portable)] == m[w := FiltersOf(op.portable)];
    }
  }

  /** The map determines the store. */
  lemma RefinesUnique(s: Store, t: Store, m: map<Waf, Filters>)
    requires Refines(s, m) && Refines(t, m)
    ensures s == t
  {
    hide Ext, ChallengeExt, Plain;
    forall k | k in s ensures k in t && t[k] == s[k] {
      var w :| w in m && (k == Ext(w) || k == ChallengeExt(w));
    }
    forall k | k in t ensures k in s {
      var w :| w in m && (k == Ext(w) || k == ChallengeExt(w));
    }
  }

  /** And the store determines the map. */
  lemma RefinesOnto(s: Store, m: map<Waf, Filters>, n: map<Waf, Filters>)
    requires Refines(s, m) && Refines(s, n)
    ensures m == n
  {
    hide Refines;
    forall w | w in m ensures w in n && n[w] == m[w] { RefinesOne(s, m, n, w); }
    forall w | w in n ensures w in m { RefinesOne(s, n, m, w); }
  }

  lemma RefinesOne(s: Store, m: map<Waf, Filters>, n: map<Waf, Filters>, w: Waf)
    requires Refines(s, m) && Refines(s, n) && w in m
    ensures w in n && n[w] == m[w]
  {
    hide Ext, ChallengeExt, Plain, Under;
    assert Ext(w) in s;
    var x :| x in n && (Ext(w) == Ext(x) || Ext(w) == ChallengeExt(x));
    ExtUnder(w, x);
    ExtUnder(x, x);
    ChallengeUnder(x, w);
  }

  /** A WAF's name is in the store exactly when the map has it, and dropping any other changes nothing. */
  lemma RefinesNames(s: Store, m: map<Waf, Filters>, w: Waf)
    requires Refines(s, m) && Plain(w)
    ensures Ext(w) in s <==> w in m
    ensures w !in m ==> Without(s, Ext(w)) == s
  {
    hide Ext, ChallengeExt, Plain, Under;
    ExtUnder(w, w);
    forall k | k in s && Under(k, Ext(w)) ensures w in m {
      var x :| x in m && (k == Ext(x) || k == ChallengeExt(x));
      ExtUnder(x, w);
      ChallengeUnder(x, w);
    }
  }

  // ----- runs of operations

  function Run(s: Store, ops: seq<Op>): Store {
    if ops == [] then s else Apply(Run(s, ops[..|ops| - 1]), ops[|ops| - 1])
  }

  function RunMap(m: map<Waf, Filters>, ops: seq<Op>): map<Waf, Filters> {
    if ops == [] then m else ApplyMap(RunMap(m, ops[..|ops| - 1]), ops[|ops| - 1])
  }

  ghost predicate AllPlain(ops: seq<Op>) { forall i :: 0 <= i < |ops| ==> Plain(Of(ops[i])) }

  lemma {:induction false} RunRefines(s: Store, m: map<Waf, Filters>, ops: seq<Op>)
    requires Refines(s, m) && AllPlain(ops)
    ensures Refines(Run(s, ops), RunMap(m, ops))
  {
    hide Refines, Apply, ApplyMap, Plain;
    if ops != [] {
      var n := |ops| - 1;
      RunRefines(s, m, ops[..n]);
      ApplyRefines(Run(s, ops[..n]), RunMap(m, ops[..n]), ops[n]);
    }
  }

  /** The last operation on a WAF. */
  function Last(ops: seq<Op>, w: Waf): Option<Op> {
    if ops == [] then None
    else
      var n := |ops| - 1;
      if Of(ops[n]) == w then Some(ops[n]) else Last(ops[..n], w)
  }

  function Holds(m: map<Waf, Filters>, w: Waf): Option<Filters> { if w in m then Some(m[w]) else None }

  function After(op: Op): Option<Filters> { match op case Put(p) => Some(FiltersOf(p)) case Drop(_) => None }

  /** What the map holds for a WAF is decided by the last operation on it alone. */
  lemma {:induction false} RunMapHolds(m: map<Waf, Filters>, ops: seq<Op>, w: Waf)
    ensures Holds(RunMap(m, ops), w) == if Last(ops, w).None? then Holds(m, w) else After(Last(ops, w).value)
  {
    if ops != [] { RunMapHolds(m, ops[..|ops| - 1], w); }
  }

  /** Replicas that saw the same last operation on every WAF hold equal stores, whatever the order
      in which operations on different WAFs arrived. */
  lemma {:induction false} ReplicasConverge(a: seq<Op>, b: seq<Op>)
    requires AllPlain(a) && AllPlain(b) && forall w :: Last(a, w) == Last(b, w)
    ensures Run(map[], a) == Run(map[], b)
  {
    hide Run, RunMap, Last, Plain, AllPlain;
    StartsEmpty();
    RunRefines(map[], map[], a);
    RunRefines(map[], map[], b);
    var m, n := RunMap(map[], a), RunMap(map[], b);
    forall w ensures Holds(m, w) == Holds(n, w) {
      RunMapHolds(map[], a, w);
      RunMapHolds(map[], b, w);
    }
    SameHolds(m, n);
    RefinesUnique(Run(map[], a), Run(map[], b), m);
  }

  lemma StartsEmpty()
    ensures Refines(map[], map[])
  {
  }

  lemma SameHolds(m: map<Waf, Filters>, n: map<Waf, Filters>)
    requires forall w :: Holds(m, w) == Holds(n, w)
    ensures m == n
  {
    forall w | w in m ensures w in n && n[w] == m[w] { assert Holds(m, w) == Holds(n, w); }
    forall w | w in n ensures w in m { assert Holds(m, w) == Holds(n, w); }
  }

  // ----- the server

  /** What clients are given. */
  datatype Snapshot = Snapshot(version: nat, resources: Store)

  predicate Buildable(f: Filter) { f.url != "" && Trim(f.sha) != "" }

  predicate CanPublish(p: Portable) {
    (p.challenge.None? || Buildable(p.challenge.value)) && Buildable(p.engine)
  }

  class Server {
    var version: nat
    var resources: Store
    var served: Snapshot

    /** `cached` says whether the snapshot cache takes the first, empty, snapshot. */
    constructor (cached: bool)
      ensures version == 1 && resources == map[] && served == Snapshot(if cached then 1 else 0, map[])
    {
      version, resources := 1, map[];
      served := Snapshot(if cached then 1 else 0, map[]);
    }

    /** Numbers the next snapshot and hands it to the cache, which may refuse it. */
    method Publish(cached: bool) returns (ok: bool)
      modifies this`version, this`served
      ensures ok == cached && version == old(version) + 1
      ensures served == if cached then Snapshot(version, resources) else old(served)
    {
      version := version + 1;
      if cached { served := Snapshot(version, resources); }
      ok := cached;
    }

    method RemoveUnder(ext: string) returns (removed: nat)
      modifies this`resources
      ensures resources == Without(old(resources), ext)
      ensures removed == |old(resources)| - |resources|
    {
      hide Under;
      removed := 0;
      var rest := resources.Keys;
      while rest != {}
        invariant rest <= old(resources).Keys
        invariant resources == map k | k in old(resources) && (k in rest || !Under(k, ext)) :: old(resources)[k]
        invariant removed == |old(resources)| - |resources|
        decreases |rest|
      {
        var k :| k in rest;
        rest := rest - {k};
        if Under(k, ext) {
          assert |resources.Keys - {k}| == |resources.Keys| - 1;
          var fewer := resources - {k};
          assert fewer.Keys == resources.Keys - {k};
          resources := fewer;
          removed := removed + 1;
        }
      }
    }

    method Upsert(p: Portable, cached: bool) returns (ok: bool)
      modifies this
      ensures ok == (CanPublish(p) && cached)
      ensures !CanPublish(p) ==> version == old(version) && resources == old(resources) && served == old(served)
      ensures CanPublish(p) ==> version == old(version) + 1 && resources == Apply(old(resources), Put(p))
      ensures ok ==> served == Snapshot(version, resources)
      ensures !ok ==> served == old(served)
    {
      hide Without, Under;
      if p.challenge.Some? && !Buildable(p.challenge.value) { return false; }
      if !Buildable(p.engine) { return false; }
      var _ := RemoveUnder(Ext(p.waf));
      if p.challenge.Some? {
        resources := resources[ChallengeExt(p.waf) := p.challenge.value.config];
      }
      resources := resources[Ext(p.waf) := p.engine.config];
      ok := Publish(cached);
    }

    /** Nothing is published when nothing was removed. */
    method Delete(w: Waf, cached: bool) returns (ok: bool)
      modifies this
      ensures resources == Apply(old(resources), Drop(w))
      ensures resources == old(resources) ==> ok && version == old(version) && served == old(served)
      ensures resources != old(resources) ==>
                && ok == cached && version == old(version) + 1
                && served == if cached then Snapshot(version, resources) else old(served)
    {
      hide Under;
      var removed := RemoveUnder(Ext(w));
      if removed == 0 {
        SameSize(old(resources), Ext(w));
        return true;
      }
      ok := Publish(cached);
    }
  }

  lemma SameSize(s: Store, ext: string)
    requires |Without(s, ext)| == |s|
    ensures Without(s, ext) == s
  {
    hide Under;
    var t := Without(s, ext);
    assert t.Keys <= s.Keys;
    SubsetSameSize(t.Keys, s.Keys);
  }

  lemma SubsetSameSize(a: set<string>, b: set<string>)
    requires a <= b && |a| == |b|
    ensures a == b
  {
    assert |b - a| == |b| - |a|;
  }
}
