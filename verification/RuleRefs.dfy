/** Rule references: a WAF or a RuleSet refers to rules and RuleSets, by name or by label, and the
    resolver collects everything that can be reached along references the owner allows. */
module RuleRefs {
  import opened Text

  datatype Id = Id(kind: string, ns: string, name: string)

  datatype Ref = Ref(kind: string, group: string, version: string, ns: string, name: string, selector: Option<string>)

  /** A RuleSet's rule for other namespaces. */
  datatype Policy = Policy(from: Option<string>, selector: Option<string>)

  /** Who refers: its namespace, and its policy when it is a RuleSet. */
  datatype Owner = Owner(id: Id, policy: Option<Policy>)

  datatype RuleSet = RuleSet(refs: seq<Ref>, policy: Policy)

  datatype LockResult = Locked | Conflict | LockFailed

  /** The cluster as it is read during one resolution. `ruleSets` is empty for a RuleSet that
      cannot be decoded; `matches` says whether the labels of a namespace match a selector. */
  datatype World = World(
    get: Ref -> Option<Id>, list: Ref -> Option<seq<Id>>, ruleSets: Id -> Option<RuleSet>,
    matches: (string, string) -> bool, lock: (Id, Id) -> LockResult)

  // ----- one reference

  function OrElse(s: string, default: string): string { if s == "" then default else s }

  function WithDefaults(ref: Ref, ownerNs: string): Ref {
    var r := ref.(ns := OrElse(ref.ns, ownerNs));
    if r.kind == "SecRule" || r.kind == "SecAction" then
      r.(group := OrElse(r.group, "seclang.kubewaf.io"), version := OrElse(r.version, "v1beta1"))
    else if r.kind == "RuleSet" || r.kind == "" then
      r.(kind := "RuleSet", group := OrElse(r.group, "waf.kubewaf.io"), version := OrElse(r.version, "v1beta1"))
    else r
  }

  /** What a reference means to its owner; none when it cannot be looked up. */
  function LookUp(w: World, ref: Ref, ownerNs: string): Option<seq<Id>> {
    var r := WithDefaults(ref, ownerNs);
    if r.selector.Some? then w.list(r)
    else if r.name == "" then None
    else match w.get(r) case None => None case Some(id) => Some([id])
  }

  predicate Allows(w: World, owner: Owner, target: Id) {
    if owner.id.ns == target.ns || owner.policy.None? then true
    else
      var from := if owner.policy.value.from.None? then "Same" else owner.policy.value.from.value;
      if from == "All" then true
      else if from == "Selector" then
        owner.policy.value.selector.Some? && w.matches(target.ns, owner.policy.value.selector.value)
      else false
  }

  predicate IsRuleSet(id: Id) { id.kind == "RuleSet" }

  function OwnerOf(id: Id, rs: RuleSet): Owner { Owner(id, Some(rs.policy)) }

  // ----- the resolution as values

  datatype RefError = RefError(index: nat, ref: Ref)

  /** What was collected, and whether the resolution stopped because a RuleSet was unreadable. */
  datatype Out = Out(objects: seq<Id>, errors: seq<RefError>, stopped: bool)

  function Join(a: Out, b: Out): Out {
    if a.stopped then a else Out(a.objects + b.objects, a.errors + b.errors, b.stopped)
  }

  const NOTHING := Out([], [], false)

  /** `b` is a RuleSet that `owner`, holding `refs`, refers to and allows. */
  ghost predicate Nests(w: World, owner: Owner, refs: seq<Ref>, b: Id) { IsRuleSet(b) && Yields(w, owner, refs, b) }

  ghost predicate Yields(w: World, owner: Owner, refs: seq<Ref>, x: Id) {
    Allows(w, owner, x) && exists i :: 0 <= i < |refs| && Finds(w, owner, refs[i], x)
  }

  predicate Finds(w: World, owner: Owner, ref: Ref, x: Id) {
    var items := LookUp(w, ref, owner.id.ns);
    items.Some? && x in items.value
  }

  /** The RuleSets that matter have a rank, and rank above the RuleSets they refer to. */
  ghost predicate Acyclic(w: World, rank: Id -> int) {
    forall a, b :: rank(a) >= 0 && w.ruleSets(a).Some? &&
                   Nests(w, OwnerOf(a, w.ruleSets(a).value), w.ruleSets(a).value.refs, b) ==>
                     0 <= rank(b) < rank(a)
  }

  ghost predicate Below(w: World, rank: Id -> int, owner: Owner, refs: seq<Ref>, h: nat) {
    forall b :: Nests(w, owner, refs, b) ==> 0 <= rank(b) < h
  }

  ghost function Walk(w: World, rank: Id -> int, lock: bool, owner: Owner, refs: seq<Ref>, h: nat): Out
    requires Acyclic(w, rank) && Below(w, rank, owner, refs, h)
    decreases h, 3, |refs|
  {
    if refs == [] then NOTHING
    else
      var n := |refs| - 1;
      assert Below(w, rank, owner, refs[..n], h) by { FewerRefs(w, rank, owner, refs, h); }
      assert forall x :: Finds(w, owner, refs[n], x) && Allows(w, owner, x) ==> Yields(w, owner, refs, x);
      Join(Walk(w, rank, lock, owner, refs[..n], h), Resolve(w, rank, lock, owner, refs[n], h))
  }

  ghost predicate RefBelow(w: World, rank: Id -> int, owner: Owner, items: seq<Id>, h: nat) {
    forall x :: x in items && IsRuleSet(x) && Allows(w, owner, x) ==> 0 <= rank(x) < h
  }

  /** One reference: everything it finds. */
  ghost function Resolve(w: World, rank: Id -> int, lock: bool, owner: Owner, ref: Ref, h: nat): Out
    requires Acyclic(w, rank)
    requires forall x :: Finds(w, owner, ref, x) && IsRuleSet(x) && Allows(w, owner, x) ==> 0 <= rank(x) < h
    decreases h, 2, 0
  {
    match LookUp(w, ref, owner.id.ns)
    case None => Out([], [RefError(0, ref)], false)
    case Some(items) =>
      assert forall x :: x in items ==> Finds(w, owner, ref, x);
      Each(w, rank, lock, owner, ref, items, h)
  }

  ghost function Each(w: World, rank: Id -> int, lock: bool, owner: Owner, ref: Ref, items: seq<Id>, h: nat): Out
    requires Acyclic(w, rank) && RefBelow(w, rank, owner, items, h)
    decreases h, 1, |items|
  {
    if items == [] then NOTHING
    else
      var n := |items| - 1;
      Join(Each(w, rank, lock, owner, ref, items[..n], h), One(w, rank, lock, owner, ref, items[n], h))
  }

  /** One object: a RuleSet comes after everything it leads to. */
  ghost function One(w: World, rank: Id -> int, lock: bool, owner: Owner, ref: Ref, x: Id, h: nat): Out
    requires Acyclic(w, rank) && (IsRuleSet(x) && Allows(w, owner, x) ==> 0 <= rank(x) < h)
    decreases h, 0, 0
  {
    if !Allows(w, owner, x) then Out([], [RefError(1, ref)], false)
    else if lock && w.lock(owner.id, x) == LockFailed then Out([], [RefError(2, ref)], false)
    else if !IsRuleSet(x) then Out([x], [], false)
    else
      match w.ruleSets(x)
      case None => Out([], [], true)
      case Some(rs) =>
        var inner := Walk(w, rank, lock, OwnerOf(x, rs), rs.refs, rank(x));
        if inner.stopped then Out([], [], true) else Out(inner.objects + [x], inner.errors, false)
  }

  lemma FewerRefs(w: World, rank: Id -> int, owner: Owner, refs: seq<Ref>, h: nat)
    requires Below(w, rank, owner, refs, h) && refs != []
    ensures Below(w, rank, owner, refs[..|refs| - 1], h)
  {
    hide Finds, Allows;
    var front := refs[..|refs| - 1];
    forall b | Nests(w, owner, front, b) ensures 0 <= rank(b) < h {
      var i :| 0 <= i < |front| && Finds(w, owner, front[i], b);
      assert refs[i] == front[i];
      assert Nests(w, owner, refs, b);
    }
  }

  // ----- the resolution as it runs

  lemma RefsPrefix(w: World, rank: Id -> int, owner: Owner, refs: seq<Ref>, i: nat, h: nat)
    requires Below(w, rank, owner, refs, h) && i <= |refs|
    ensures Below(w, rank, owner, refs[..i], h)
    ensures i < |refs| ==> forall x :: Finds(w, owner, refs[i], x) && IsRuleSet(x) && Allows(w, owner, x) ==> 0 <= rank(x) < h
  {
    hide Finds, Allows, IsRuleSet;
    forall b | Nests(w, owner, refs[..i], b) ensures 0 <= rank(b) < h {
      var k :| 0 <= k < i && Finds(w, owner, refs[..i][k], b);
      assert refs[k] == refs[..i][k];
      assert Nests(w, owner, refs, b);
    }
    if i < |refs| {
      forall x | Finds(w, owner, refs[i], x) && IsRuleSet(x) && Allows(w, owner, x) ensures 0 <= rank(x) < h {
        assert Nests(w, owner, refs, x);
      }
    }
  }

  lemma NestedBelow(w: World, rank: Id -> int, x: Id)
    requires Acyclic(w, rank) && rank(x) >= 0 && w.ruleSets(x).Some?
    ensures Below(w, rank, OwnerOf(x, w.ruleSets(x).value), w.ruleSets(x).value.refs, rank(x))
  {
    hide Nests;
  }

  method ResolveOne(w: World, lock: bool, owner: Owner, ref: Ref, x: Id, ghost rank: Id -> int, ghost h: nat)
    returns (r: Out)
    requires Acyclic(w, rank) && (IsRuleSet(x) && Allows(w, owner, x) ==> 0 <= rank(x) < h)
    ensures r == One(w, rank, lock, owner, ref, x, h)
    decreases h, 0
  {
    hide Acyclic, Walk;
    if !Allows(w, owner, x) { return Out([], [RefError(1, ref)], false); }
    if lock && w.lock(owner.id, x) == LockFailed { return Out([], [RefError(2, ref)], false); }
    if !IsRuleSet(x) { return Out([x], [], false); }
    var rs := w.ruleSets(x);
    if rs.None? { return Out([], [], true); }
    NestedBelow(w, rank, x);
    var inner := ReconcileRefs(w, lock, OwnerOf(x, rs.value), rs.value.refs, rank, rank(x));
    if inner.stopped { return Out([], [], true); }
    return Out(inner.objects + [x], inner.errors, false);
  }

  method ReconcileRefs(w: World, lock: bool, owner: Owner, refs: seq<Ref>, ghost rank: Id -> int, ghost h: nat)
    returns (r: Out)
    requires Acyclic(w, rank) && Below(w, rank, owner, refs, h)
    ensures r == Walk(w, rank, lock, owner, refs, h)
    decreases h, 1
  {
    hide Acyclic, Below, Finds, Allows, One, Walk, Each;
    var objects, errors := [], [];
    RefsPrefix(w, rank, owner, refs, 0, h);
    WalkStart(w, rank, lock, owner, h);
    for i := 0 to |refs|
      invariant Below(w, rank, owner, refs[..i], h)
      invariant Walk(w, rank, lock, owner, refs[..i], h) == Out(objects, errors, false)
    {
      RefsPrefix(w, rank, owner, refs, i, h);
      RefsPrefix(w, rank, owner, refs, i + 1, h);
      WalkStep(w, rank, lock, owner, refs, i, h);
      var items := LookUp(w, refs[i], owner.id.ns);
      if items.None? {
        errors := errors + [RefError(0, refs[i])];
      } else {
        var all, front := items.value, Out(objects, errors, false);
        FindsItems(w, owner, refs[i]);
        EachStart(w, rank, lock, owner, refs[i], h);
        for j := 0 to |all|
          invariant RefBelow(w, rank, owner, all, h) && RefBelow(w, rank, owner, all[..j], h)
          invariant Join(front, Each(w, rank, lock, owner, refs[i], all[..j], h)) == Out(objects, errors, false)
        {
          EachStep(w, rank, lock, owner, refs[i], all, j, h);
          var one := ResolveOne(w, lock, owner, refs[i], all[j], rank, h);
          if one.stopped {
            StopsEarly(w, rank, lock, owner, refs, i, all, j, h);
            return Out(objects, errors, true);
          }
          objects, errors := objects + one.objects, errors + one.errors;
        }
        assert all[..|all|] == all;
      }
    }
    assert refs[..|refs|] == refs;
    r := Out(objects, errors, false);
  }

  lemma WalkStart(w: World, rank: Id -> int, lock: bool, owner: Owner, h: nat)
    requires Acyclic(w, rank) && Below(w, rank, owner, [], h)
    ensures Walk(w, rank, lock, owner, [], h) == NOTHING
  {
  }

  lemma EachStart(w: World, rank: Id -> int, lock: bool, owner: Owner, ref: Ref, h: nat)
    requires Acyclic(w, rank)
    ensures Each(w, rank, lock, owner, ref, [], h) == NOTHING
  {
  }

  lemma FindsItems(w: World, owner: Owner, ref: Ref)
    ensures LookUp(w, ref, owner.id.ns).Some? ==> forall x :: x in LookUp(w, ref, owner.id.ns).value ==> Finds(w, owner, ref, x)
  {
  }

  lemma WalkStep(w: World, rank: Id -> int, lock: bool, owner: Owner, refs: seq<Ref>, i: nat, h: nat)
    requires Acyclic(w, rank) && i < |refs| && Below(w, rank, owner, refs[..i], h) && Below(w, rank, owner, refs[..i + 1], h)
    requires forall x :: Finds(w, owner, refs[i], x) && IsRuleSet(x) && Allows(w, owner, x) ==> 0 <= rank(x) < h
    ensures Walk(w, rank, lock, owner, refs[..i + 1], h) ==
            Join(Walk(w, rank, lock, owner, refs[..i], h), Resolve(w, rank, lock, owner, refs[i], h))
  {
    hide Acyclic, Below, Finds, Allows, Resolve;
    assert refs[..i + 1][..i] == refs[..i];
  }

  lemma EachStep(w: World, rank: Id -> int, lock: bool, owner: Owner, ref: Ref, items: seq<Id>, j: nat, h: nat)
    requires Acyclic(w, rank) && RefBelow(w, rank, owner, items, h) && j < |items|
    ensures RefBelow(w, rank, owner, items[..j], h) && RefBelow(w, rank, owner, items[..j + 1], h)
    ensures Each(w, rank, lock, owner, ref, items[..j + 1], h) ==
            Join(Each(w, rank, lock, owner, ref, items[..j], h), One(w, rank, lock, owner, ref, items[j], h))
  {
    hide Acyclic, Allows, One;
    assert items[..j + 1][..j] == items[..j];
  }

  lemma {:induction false} EachStays(w: World, rank: Id -> int, lock: bool, owner: Owner, ref: Ref, items: seq<Id>,
                                     a: nat, b: nat, h: nat)
    requires Acyclic(w, rank) && RefBelow(w, rank, owner, items, h) && a <= b <= |items|
    requires RefBelow(w, rank, owner, items[..a], h) && RefBelow(w, rank, owner, items[..b], h)
    requires Each(w, rank, lock, owner, ref, items[..a], h).stopped
    ensures Each(w, rank, lock, owner, ref, items[..b], h) == Each(w, rank, lock, owner, ref, items[..a], h)
    decreases b
  {
    hide Acyclic, Allows, One, Each;
    if a < b {
      EachStep(w, rank, lock, owner, ref, items, b - 1, h);
      EachStays(w, rank, lock, owner, ref, items, a, b - 1, h);
    }
  }

  lemma {:induction false} WalkStays(w: World, rank: Id -> int, lock: bool, owner: Owner, refs: seq<Ref>,
                                     a: nat, b: nat, h: nat)
    requires Acyclic(w, rank) && Below(w, rank, owner, refs, h) && a <= b <= |refs|
    requires Below(w, rank, owner, refs[..a], h) && Below(w, rank, owner, refs[..b], h)
    requires Walk(w, rank, lock, owner, refs[..a], h).stopped
    ensures Walk(w, rank, lock, owner, refs[..b], h) == Walk(w, rank, lock, owner, refs[..a], h)
    decreases b
  {
    hide Acyclic, Allows, Walk, Below, Resolve, Finds;
    if a < b {
      RefsPrefix(w, rank, owner, refs, b - 1, h);
      WalkStep(w, rank, lock, owner, refs, b - 1, h);
      WalkStays(w, rank, lock, owner, refs, a, b - 1, h);
    }
  }

  /** Nothing after an unreadable RuleSet is looked at. */
  lemma StopsEarly(w: World, rank: Id -> int, lock: bool, owner: Owner, refs: seq<Ref>, i: nat, items: seq<Id>,
                   j: nat, h: nat)
    requires Acyclic(w, rank) && Below(w, rank, owner, refs, h) && i < |refs| && Below(w, rank, owner, refs[..i], h)
    requires LookUp(w, refs[i], owner.id.ns) == Some(items) && RefBelow(w, rank, owner, items, h)
    requires j < |items| && RefBelow(w, rank, owner, items[..j], h) && (IsRuleSet(items[j]) && Allows(w, owner, items[j]) ==> 0 <= rank(items[j]) < h)
    requires !Walk(w, rank, lock, owner, refs[..i], h).stopped
    requires !Each(w, rank, lock, owner, refs[i], items[..j], h).stopped
    requires One(w, rank, lock, owner, refs[i], items[j], h).stopped
    ensures Walk(w, rank, lock, owner, refs, h) ==
            Join(Join(Walk(w, rank, lock, owner, refs[..i], h), Each(w, rank, lock, owner, refs[i], items[..j], h)),
                 Out([], [], true))
  {
    hide Acyclic, Allows, Walk, Below, Finds, One, Each;
    EachStep(w, rank, lock, owner, refs[i], items, j, h);
    EachStays(w, rank, lock, owner, refs[i], items, j + 1, |items|, h);
    StoppedEmpty(w, rank, lock, owner, refs[i], items[j], h);
    assert items[..|items|] == items && refs[..|refs|] == refs;
    RefsPrefix(w, rank, owner, refs, i, h);
    RefsPrefix(w, rank, owner, refs, i + 1, h);
    WalkStep(w, rank, lock, owner, refs, i, h);
    WalkStays(w, rank, lock, owner, refs, i + 1, |refs|, h);
  }

  lemma StoppedEmpty(w: World, rank: Id -> int, lock: bool, owner: Owner, ref: Ref, x: Id, h: nat)
    requires Acyclic(w, rank) && (IsRuleSet(x) && Allows(w, owner, x) ==> 0 <= rank(x) < h)
    requires One(w, rank, lock, owner, ref, x, h).stopped
    ensures One(w, rank, lock, owner, ref, x, h) == Out([], [], true)
  {
    hide Acyclic, Walk, Allows;
  }

  /** A reference keeps what it says; what it leaves open is its owner's namespace and, for the kinds the
      operator knows, their group and version. A reference without a kind is one to a RuleSet. */
  lemma DefaultsAre(ref: Ref, ownerNs: string)
    ensures var r := WithDefaults(ref, ownerNs);
            && r.name == ref.name && r.selector == ref.selector
            && (ref.ns != "" ==> r.ns == ref.ns) && (ref.ns == "" ==> r.ns == ownerNs)
            && (ref.group != "" ==> r.group == ref.group) && (ref.version != "" ==> r.version == ref.version)
            && (ref.kind != "" ==> r.kind == ref.kind) && (ref.kind == "" ==> r.kind == "RuleSet")
            && (r.kind in ["SecRule", "SecAction", "RuleSet"] && ref.version == "" ==> r.version == "v1beta1")
            && (r.kind in ["SecRule", "SecAction"] && ref.group == "" ==> r.group == "seclang.kubewaf.io")
            && (r.kind == "RuleSet" && ref.group == "" ==> r.group == "waf.kubewaf.io")
  {
  }

  /** A selector lists, whatever the name; a name alone gets one object; neither finds nothing. */
  lemma LookUpIs(w: World, ref: Ref, ownerNs: string)
    ensures var r, found := WithDefaults(ref, ownerNs), LookUp(w, ref, ownerNs);
            && (ref.selector.Some? ==> found == w.list(r))
            && (ref.selector.None? && ref.name == "" ==> found == None)
            && (ref.selector.None? && ref.name != "" && w.get(r).None? ==> found == None)
            && (ref.selector.None? && ref.name != "" && w.get(r).Some? ==> found == Some([w.get(r).value]))
  {
  }
}
