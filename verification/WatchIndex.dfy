/** Which WAFs a changed RuleSet concerns: the index over named references, the full scan used
    without it, and the mapping over one or two references. */
module WatchIndex {
  import opened EcdsStore

  datatype NamedRef = NamedRef(kind: string, ns: string, name: string)

  /** A WAF or a RuleSet: where it is, and what it refers to. */
  datatype Holder = Holder(ns: string, name: string, refs: seq<NamedRef>)

  function KindOf(r: NamedRef): string { if r.kind == "" then "RuleSet" else r.kind }

  function NsOf(r: NamedRef, ownerNs: string): string { if r.ns == "" then ownerNs else r.ns }

  function Key(kind: string, ns: string, name: string): string { kind + ("/" + (ns + ("/" + name))) }

  /** The keys of the references by name. */
  function KeysUpTo(ownerNs: string, refs: seq<NamedRef>, n: nat): seq<string>
    requires n <= |refs|
  {
    if n == 0 then []
    else
      var r := refs[n - 1];
      KeysUpTo(ownerNs, refs, n - 1) + if r.name == "" then [] else [Key(KindOf(r), NsOf(r, ownerNs), r.name)]
  }

  method RuleRefIndexKeys(ownerNs: string, refs: seq<NamedRef>) returns (out: seq<string>)
    ensures out == KeysUpTo(ownerNs, refs, |refs|)
  {
    out := [];
    for i := 0 to |refs|
      invariant out == KeysUpTo(ownerNs, refs, i)
    {
      if refs[i].name != "" {
        out := out + [Key(KindOf(refs[i]), NsOf(refs[i], ownerNs), refs[i].name)];
      }
    }
  }

  /** The reference names the RuleSet. */
  predicate RefNames(r: NamedRef, ownerNs: string, ns: string, name: string) {
    KindOf(r) == "RuleSet" && r.name == name && NsOf(r, ownerNs) == ns
  }

  predicate HolderNames(h: Holder, ns: string, name: string) {
    exists i :: 0 <= i < |h.refs| && RefNames(h.refs[i], h.ns, ns, name)
  }

  /** Kubernetes kinds, namespaces and names hold no slash. */
  predicate RefPlain(r: NamedRef) { '/' !in r.kind && '/' !in r.ns }

  ghost predicate HolderPlain(h: Holder) { '/' !in h.ns && forall i :: 0 <= i < |h.refs| ==> RefPlain(h.refs[i]) }

  lemma KeyInjective(kind: string, ns: string, name: string, kind': string, ns': string, name': string)
    requires '/' !in kind && '/' !in kind' && '/' !in ns && '/' !in ns'
    requires Key(kind, ns, name) == Key(kind', ns', name')
    ensures kind == kind' && ns == ns' && name == name'
  {
    SlashSplits(kind, ns + ("/" + name), kind', ns' + ("/" + name'));
    SlashSplits(ns, name, ns', name');
  }

  lemma {:induction false} KeysExact(h: Holder, n: nat, ns: string, name: string)
    requires HolderPlain(h) && n <= |h.refs| && name != "" && '/' !in ns
    ensures Key("RuleSet", ns, name) in KeysUpTo(h.ns, h.refs, n) <==>
            exists i :: 0 <= i < n && RefNames(h.refs[i], h.ns, ns, name)
  {
    hide Key;
    if n > 0 {
      KeysExact(h, n - 1, ns, name);
      var r := h.refs[n - 1];
      assert RefPlain(r);
      if Key(KindOf(r), NsOf(r, h.ns), r.name) == Key("RuleSet", ns, name) {
        KeyInjective(KindOf(r), NsOf(r, h.ns), r.name, "RuleSet", ns, name);
      }
    }
  }

  // ----- the two ways to find the WAFs of a RuleSet

  datatype Place = Place(ns: string, name: string)

  function PlaceOf(h: Holder): Place { Place(h.ns, h.name) }

  function Namers(wafs: seq<Holder>, ns: string, name: string): set<Place> {
    set h | h in wafs && HolderNames(h, ns, name) :: PlaceOf(h)
  }

  /** `indexed` says whether the index is there; without it the WAFs are scanned. Adds to `found`. */
  method CollectWafs(wafs: seq<Holder>, ns: string, name: string, indexed: bool, found: set<Place>)
    returns (out: set<Place>)
    requires '/' !in ns && forall h :: h in wafs ==> HolderPlain(h)
    ensures out == found + if name == "" then {} else Namers(wafs, if ns == "" then "default" else ns, name)
  {
    hide HolderPlain, HolderNames, Key;
    out := found;
    if name == "" { return; }
    var n := if ns == "" then "default" else ns;
    for i := 0 to |wafs|
      invariant out == found + Namers(wafs[..i], n, name)
    {
      var h := wafs[i];
      assert wafs[..i + 1] == wafs[..i] + [h];
      NamersStep(wafs[..i], h, n, name);
      var hit;
      if indexed {
        var keys := RuleRefIndexKeys(h.ns, h.refs);
        hit := Key("RuleSet", n, name) in keys;
        KeysExact(h, |h.refs|, n, name);
        NamesMeans(h, n, name);
      } else {
        hit := Scan(h, n, name);
      }
      if hit { out := out + {PlaceOf(h)}; }
    }
    assert wafs[..|wafs|] == wafs;
  }

  lemma NamesMeans(h: Holder, ns: string, name: string)
    ensures HolderNames(h, ns, name) <==> exists i :: 0 <= i < |h.refs| && RefNames(h.refs[i], h.ns, ns, name)
  {
  }

  lemma NamersStep(wafs: seq<Holder>, h: Holder, ns: string, name: string)
    ensures Namers(wafs + [h], ns, name) == Namers(wafs, ns, name) + if HolderNames(h, ns, name) then {PlaceOf(h)} else {}
  {
    hide HolderNames;
    assert forall x :: x in wafs + [h] <==> x in wafs || x == h;
  }

  method Scan(h: Holder, ns: string, name: string) returns (hit: bool)
    ensures hit == HolderNames(h, ns, name)
  {
    hit := false;
    for i := 0 to |h.refs|
      invariant hit == exists k :: 0 <= k < i && RefNames(h.refs[k], h.ns, ns, name)
    {
      if RefNames(h.refs[i], h.ns, ns, name) { hit := true; }
    }
  }

  /** The WAFs that name the RuleSet, or name a RuleSet that names it. */
  ghost predicate WithinTwo(wafs: seq<Holder>, ruleSets: seq<Holder>, ns: string, name: string, p: Place) {
    exists h :: h in wafs && p == PlaceOf(h) &&
                (HolderNames(h, ns, name) ||
                 exists q :: q in ruleSets && HolderNames(q, ns, name) && HolderNames(h, q.ns, q.name))
  }

  ghost predicate RuleSetPlain(h: Holder) { HolderPlain(h) && h.ns != "" && h.name != "" }

  /** Every WAF within one or two named references is found, and no other, whether WAFs are indexed
      or scanned. Without the index over RuleSets only one reference is followed. */
  method MapRuleSetToWafs(wafs: seq<Holder>, ruleSets: seq<Holder>, ns: string, name: string, indexed: bool,
                          ruleSetsIndexed: bool)
    returns (out: set<Place>)
    requires '/' !in ns && ns != "" && name != ""
    requires (forall h :: h in wafs ==> HolderPlain(h)) && forall q :: q in ruleSets ==> RuleSetPlain(q)
    ensures ruleSetsIndexed ==> forall p :: p in out <==> WithinTwo(wafs, ruleSets, ns, name, p)
    ensures !ruleSetsIndexed ==> out == Namers(wafs, ns, name)
  {
    hide HolderNames, Key, HolderPlain;
    out := CollectWafs(wafs, ns, name, indexed, {});
    if !ruleSetsIndexed { return; }
    ghost var direct := out;
    for i := 0 to |ruleSets|
      invariant forall p :: p in out <==>
        p in direct || exists k :: 0 <= k < i && HolderNames(ruleSets[k], ns, name) && p in Namers(wafs, ruleSets[k].ns, ruleSets[k].name)
    {
      var q := ruleSets[i];
      assert RuleSetPlain(q);
      SlashFree(q);
      var keys := RuleRefIndexKeys(q.ns, q.refs);
      KeysExact(q, |q.refs|, ns, name);
      NamesMeans(q, ns, name);
      if Key("RuleSet", ns, name) in keys {
        out := CollectWafs(wafs, q.ns, q.name, indexed, out);
      }
    }
    forall p ensures p in out <==> WithinTwo(wafs, ruleSets, ns, name, p) { TwoMeans(wafs, ruleSets, ns, name, p); }
  }

  lemma SlashFree(q: Holder)
    requires HolderPlain(q)
    ensures '/' !in q.ns
  {
  }

  lemma TwoMeans(wafs: seq<Holder>, ruleSets: seq<Holder>, ns: string, name: string, p: Place)
    ensures WithinTwo(wafs, ruleSets, ns, name, p) <==>
            || p in Namers(wafs, ns, name)
            || exists k :: 0 <= k < |ruleSets| && HolderNames(ruleSets[k], ns, name) && p in Namers(wafs, ruleSets[k].ns, ruleSets[k].name)
  {
    hide HolderNames;
    if WithinTwo(wafs, ruleSets, ns, name, p) {
      var h :| h in wafs && p == PlaceOf(h) &&
               (HolderNames(h, ns, name) ||
                exists q :: q in ruleSets && HolderNames(q, ns, name) && HolderNames(h, q.ns, q.name));
      if !HolderNames(h, ns, name) {
        var q :| q in ruleSets && HolderNames(q, ns, name) && HolderNames(h, q.ns, q.name);
        var k :| 0 <= k < |ruleSets| && ruleSets[k] == q;
        assert p in Namers(wafs, ruleSets[k].ns, ruleSets[k].name);
      }
    }
    if k :| 0 <= k < |ruleSets| && HolderNames(ruleSets[k], ns, name) && p in Namers(wafs, ruleSets[k].ns, ruleSets[k].name) {
      var h :| h in wafs && HolderNames(h, ruleSets[k].ns, ruleSets[k].name) && PlaceOf(h) == p;
      assert ruleSets[k] in ruleSets;
    }
  }

  /** A WAF that uses a RuleSet through two others is not found when that RuleSet changes. */
  lemma ThreeReferencesMissed(ns: string)
    requires ns != ""
    ensures var a, b := Holder(ns, "a", [NamedRef("", "", "b")]), Holder(ns, "b", [NamedRef("", "", "c")]);
            var waf := Holder(ns, "waf", [NamedRef("", "", "a")]);
            && HolderNames(waf, ns, "a") && HolderNames(a, ns, "b") && HolderNames(b, ns, "c")
            && !WithinTwo([waf], [a, b], ns, "c", PlaceOf(waf))
  {
    var a, b := Holder(ns, "a", [NamedRef("", "", "b")]), Holder(ns, "b", [NamedRef("", "", "c")]);
    var waf := Holder(ns, "waf", [NamedRef("", "", "a")]);
    assert RefNames(waf.refs[0], ns, ns, "a") && RefNames(a.refs[0], ns, ns, "b") && RefNames(b.refs[0], ns, ns, "c");
    assert !HolderNames(waf, ns, "c") && !HolderNames(waf, ns, "b") && !HolderNames(a, ns, "c");
  }
}
