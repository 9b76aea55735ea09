/** The watch index beside the resolver: which of the WAFs that reach a RuleSet hear of its changes. */
module RuleWatch {
  import opened Text
  import opened RuleRefs
  import opened RuleReach
  import opened WatchIndex

  /** A WAF or a RuleSet of the cluster; the policy of a WAF is not looked at. */
  datatype Object = Object(ns: string, name: string, refs: seq<Ref>, policy: Policy)

  datatype Cluster = Cluster(wafs: seq<Object>, ruleSets: seq<Object>)

  /** What the index sees of a reference: not its selector. */
  function Indexed(r: Ref): NamedRef { NamedRef(r.kind, r.ns, r.name) }

  function HolderOf(o: Object): (h: Holder)
    ensures |h.refs| == |o.refs| && forall i :: 0 <= i < |o.refs| ==> h.refs[i] == Indexed(o.refs[i])
  {
    Holder(o.ns, o.name, seq(|o.refs|, i requires 0 <= i < |o.refs| => Indexed(o.refs[i])))
  }

  function Holders(os: seq<Object>): (hs: seq<Holder>)
    ensures |hs| == |os| && forall i :: 0 <= i < |os| ==> hs[i] == HolderOf(os[i])
  {
    seq(|os|, i requires 0 <= i < |os| => HolderOf(os[i]))
  }

  function RuleSetId(o: Object): Id { Id("RuleSet", o.ns, o.name) }

  function WafOwner(o: Object): Owner { Owner(Id("WAF", o.ns, o.name), None) }

  /** The world the resolver reads is the cluster: what a reference by name finds is what it names,
      the readable RuleSets are those of the cluster, and WAFs have different names. */
  ghost predicate Mirrors(w: World, c: Cluster) {
    && (forall r :: w.get(r).Some? ==> w.get(r).value == Id(r.kind, r.ns, r.name))
    && (forall o :: o in c.ruleSets ==> w.ruleSets(RuleSetId(o)) == Some(RuleSet(o.refs, o.policy)))
    && (forall id :: IsRuleSet(id) && w.ruleSets(id).Some? ==> exists o :: o in c.ruleSets && RuleSetId(o) == id)
    && (forall a, b :: a in c.wafs && b in c.wafs && a.ns == b.ns && a.name == b.name ==> a == b)
  }

  /** The WAF is found when the RuleSet changes. */
  ghost predicate Notified(c: Cluster, waf: Object, x: Id) {
    WithinTwo(Holders(c.wafs), Holders(c.ruleSets), x.ns, x.name, Place(waf.ns, waf.name))
  }

  // ----- steps by name

  /** The owner allows `x`, and a reference by name alone finds it. */
  ghost predicate ByName(w: World, owner: Owner, refs: seq<Ref>, x: Id) {
    Allows(w, owner, x) && exists i :: 0 <= i < |refs| && refs[i].selector.None? && Finds(w, owner, refs[i], x)
  }

  /** A path of one or two references, all by name. */
  ghost predicate NamedWithinTwo(w: World, waf: Object, x: Id) {
    || ByName(w, WafOwner(waf), waf.refs, x)
    || exists a :: NamedThrough(w, waf, a, x)
  }

  ghost predicate NamedThrough(w: World, waf: Object, a: Id, x: Id) {
    && IsRuleSet(a) && w.ruleSets(a).Some? && ByName(w, WafOwner(waf), waf.refs, a)
    && ByName(w, OwnerOf(a, w.ruleSets(a).value), w.ruleSets(a).value.refs, x)
  }

  /** Such a path is one the resolver follows. */
  lemma NamedReaches(w: World, waf: Object, x: Id)
    requires NamedWithinTwo(w, waf, x)
    ensures Reaches(w, WafOwner(waf), waf.refs, x)
  {
    hide Finds, Allows, Reaches;
    if ByName(w, WafOwner(waf), waf.refs, x) {
      ReachesNow(w, WafOwner(waf), waf.refs, x);
    } else {
      var a :| NamedThrough(w, waf, a, x);
      ReachesNow(w, OwnerOf(a, w.ruleSets(a).value), w.ruleSets(a).value.refs, x);
      ReachesThrough(w, WafOwner(waf), waf.refs, a, x);
    }
  }

  lemma FoundIsNamed(w: World, c: Cluster, owner: Owner, ref: Ref, x: Id)
    requires Mirrors(w, c) && IsRuleSet(x) && ref.selector.None? && Finds(w, owner, ref, x)
    ensures RefNames(Indexed(ref), owner.id.ns, x.ns, x.name) && ref.name != ""
  {
    var r := WithDefaults(ref, owner.id.ns);
    assert w.get(r) == Some(x);
  }

  lemma ByNameHeld(w: World, c: Cluster, o: Object, owner: Owner, x: Id)
    requires Mirrors(w, c) && IsRuleSet(x) && owner.id.ns == o.ns && ByName(w, owner, o.refs, x)
    ensures HolderNames(HolderOf(o), x.ns, x.name)
  {
    hide Mirrors, Finds, Allows, RefNames, IsRuleSet;
    var i :| 0 <= i < |o.refs| && o.refs[i].selector.None? && Finds(w, owner, o.refs[i], x);
    FoundIsNamed(w, c, owner, o.refs[i], x);
    assert RefNames(HolderOf(o).refs[i], o.ns, x.ns, x.name);
  }

  lemma HolderIn(os: seq<Object>, o: Object)
    requires o in os
    ensures HolderOf(o) in Holders(os)
  {
    hide HolderOf;
    var i :| 0 <= i < |os| && os[i] == o;
    assert Holders(os)[i] == HolderOf(o);
  }

  lemma HolderFrom(os: seq<Object>, h: Holder) returns (o: Object)
    requires h in Holders(os)
    ensures o in os && HolderOf(o) == h
  {
    hide HolderOf;
    var i :| 0 <= i < |os| && Holders(os)[i] == h;
    o := os[i];
  }

  /** No WAF within two references by name is missed. */
  lemma NamedIsNotified(w: World, c: Cluster, waf: Object, x: Id)
    requires Mirrors(w, c) && waf in c.wafs && IsRuleSet(x) && NamedWithinTwo(w, waf, x)
    ensures Notified(c, waf, x)
  {
    hide Holders, HolderNames, ByName, Finds, Allows;
    HolderIn(c.wafs, waf);
    if ByName(w, WafOwner(waf), waf.refs, x) {
      ByNameHeld(w, c, waf, WafOwner(waf), x);
    } else {
      var a :| NamedThrough(w, waf, a, x);
      var q :| q in c.ruleSets && RuleSetId(q) == a;
      HolderIn(c.ruleSets, q);
      ByNameHeld(w, c, waf, WafOwner(waf), a);
      ByNameHeld(w, c, q, OwnerOf(a, w.ruleSets(a).value), x);
    }
  }

  // ----- the exact condition

  /** What the object's references name the resolver finds by name and may use. */
  ghost predicate Obeyed(w: World, o: Object, owner: Owner) {
    forall i, x :: 0 <= i < |o.refs| && IsRuleSet(x) && x.name != "" && RefNames(Indexed(o.refs[i]), o.ns, x.ns, x.name) ==>
      o.refs[i].selector.None? && Finds(w, owner, o.refs[i], x) && Allows(w, owner, x)
  }

  ghost predicate AllObeyed(w: World, c: Cluster, waf: Object) {
    && Obeyed(w, waf, WafOwner(waf))
    && forall q :: q in c.ruleSets ==> q.name != "" && Obeyed(w, q, OwnerOf(RuleSetId(q), RuleSet(q.refs, q.policy)))
  }

  lemma HeldByName(w: World, o: Object, owner: Owner, x: Id)
    requires Obeyed(w, o, owner) && IsRuleSet(x) && x.name != "" && HolderNames(HolderOf(o), x.ns, x.name)
    ensures ByName(w, owner, o.refs, x)
  {
    hide Finds, Allows, RefNames, IsRuleSet;
    var i :| 0 <= i < |o.refs| && RefNames(HolderOf(o).refs[i], o.ns, x.ns, x.name);
    assert RefNames(Indexed(o.refs[i]), o.ns, x.ns, x.name);
  }

  /** Where named references lead to what they name, a WAF hears of a RuleSet's changes if and only
      if a path of at most two references, all by name, leads to it. */
  lemma {:induction false} NotifiedExactly(w: World, c: Cluster, waf: Object, x: Id)
    requires Mirrors(w, c) && waf in c.wafs && IsRuleSet(x) && x.name != "" && AllObeyed(w, c, waf)
    ensures Notified(c, waf, x) <==> NamedWithinTwo(w, waf, x)
  {
    hide Holders, HolderOf, HolderNames, ByName, Obeyed, Allows, Finds;
    if NamedWithinTwo(w, waf, x) { NamedIsNotified(w, c, waf, x); }
    if Notified(c, waf, x) { NotifiedIsNamed(w, c, waf, x); }
  }

  lemma NotifiedIsNamed(w: World, c: Cluster, waf: Object, x: Id)
    requires Mirrors(w, c) && waf in c.wafs && IsRuleSet(x) && x.name != "" && AllObeyed(w, c, waf) && Notified(c, waf, x)
    ensures NamedWithinTwo(w, waf, x)
  {
    hide Holders, HolderNames, ByName, Obeyed, Allows, Finds;
    var h :| h in Holders(c.wafs) && Place(waf.ns, waf.name) == PlaceOf(h) &&
             (HolderNames(h, x.ns, x.name) ||
              exists q :: q in Holders(c.ruleSets) && HolderNames(q, x.ns, x.name) && HolderNames(h, q.ns, q.name));
    var o := HolderFrom(c.wafs, h);
    assert o == waf;
    if HolderNames(h, x.ns, x.name) {
      HeldByName(w, waf, WafOwner(waf), x);
    } else {
      var q :| q in Holders(c.ruleSets) && HolderNames(q, x.ns, x.name) && HolderNames(h, q.ns, q.name);
      var p := HolderFrom(c.ruleSets, q);
      HeldByName(w, waf, WafOwner(waf), RuleSetId(p));
      HeldByName(w, p, OwnerOf(RuleSetId(p), RuleSet(p.refs, p.policy)), x);
      assert NamedThrough(w, waf, RuleSetId(p), x);
    }
  }

  /** So a WAF that reaches a RuleSet through a selector alone is missed. */
  lemma SelectorIsMissed(w: World, c: Cluster, waf: Object, x: Id)
    requires Mirrors(w, c) && waf in c.wafs && x.name != ""
    requires (forall i :: 0 <= i < |waf.refs| ==> waf.refs[i].name == "") && forall q :: q in c.ruleSets ==> q.name != ""
    requires exists i :: 0 <= i < |waf.refs| && Finds(w, WafOwner(waf), waf.refs[i], x)
    ensures Reaches(w, WafOwner(waf), waf.refs, x) && !Notified(c, waf, x)
  {
    hide Holders, Finds, Reaches;
    ReachesNow(w, WafOwner(waf), waf.refs, x);
    if Notified(c, waf, x) {
      var h :| h in Holders(c.wafs) && Place(waf.ns, waf.name) == PlaceOf(h) &&
               (HolderNames(h, x.ns, x.name) ||
                exists q :: q in Holders(c.ruleSets) && HolderNames(q, x.ns, x.name) && HolderNames(h, q.ns, q.name));
      var o := HolderFrom(c.wafs, h);
      NamesNothing(waf, x.ns, x.name);
      var q :| q in Holders(c.ruleSets) && HolderNames(q, x.ns, x.name) && HolderNames(h, q.ns, q.name);
      var p := HolderFrom(c.ruleSets, q);
      NamesNothing(waf, p.ns, p.name);
    }
  }

  lemma NamesNothing(o: Object, ns: string, name: string)
    requires name != "" && forall i :: 0 <= i < |o.refs| ==> o.refs[i].name == ""
    ensures !HolderNames(HolderOf(o), ns, name)
  {
  }
}
