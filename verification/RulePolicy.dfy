/** The namespaces a RuleSet takes rules from, said of the fields of its policy, and what that means for
    whole resolutions. */
module RulePolicy {
  import opened Text
  import opened RuleRefs
  import opened RuleReach

  /** A RuleSet takes rules of its own namespace; of others only if it says so. */
  predicate Permits(w: World, policy: Policy, ns: string, target: string) {
    || target == ns
    || policy.from == Some("All")
    || (policy.from == Some("Selector") && policy.selector.Some? && w.matches(target, policy.selector.value))
  }

  /** An owner without a policy, a WAF, takes rules from everywhere. */
  predicate MayTake(w: World, owner: Owner, target: string) {
    owner.policy.Some? ==> Permits(w, owner.policy.value, owner.id.ns, target)
  }

  lemma AllowsMeans(w: World, owner: Owner, x: Id)
    ensures Allows(w, owner, x) <==> MayTake(w, owner, x.ns)
  {
  }

  /** Each object is found by a reference of the one before, which may take it. */
  ghost predicate LawfulPath(w: World, owner: Owner, refs: seq<Ref>, p: seq<Id>)
    decreases |p|
  {
    && p != [] && MayTake(w, owner, p[0].ns) && (exists i :: 0 <= i < |refs| && Finds(w, owner, refs[i], p[0]))
    && (|p| > 1 ==>
          && p[0].kind == "RuleSet" && w.ruleSets(p[0]).Some?
          && var rs := w.ruleSets(p[0]).value;
             LawfulPath(w, Owner(p[0], Some(rs.policy)), rs.refs, p[1..]))
  }

  lemma {:induction false} LawfulIsPath(w: World, owner: Owner, refs: seq<Ref>, p: seq<Id>)
    ensures LawfulPath(w, owner, refs, p) <==> Path(w, owner, refs, p)
    decreases |p|
  {
    hide Finds, MayTake, Allows;
    if p != [] {
      AllowsMeans(w, owner, p[0]);
      if |p| > 1 && w.ruleSets(p[0]).Some? {
        LawfulIsPath(w, OwnerOf(p[0], w.ruleSets(p[0]).value), w.ruleSets(p[0]).value.refs, p[1..]);
      }
    }
  }

  ghost predicate LawfullyReaches(w: World, owner: Owner, refs: seq<Ref>, x: Id) {
    exists p :: LawfulPath(w, owner, refs, p) && p[|p| - 1] == x
  }

  lemma {:induction false} ReachesLawfully(w: World, owner: Owner, refs: seq<Ref>, x: Id)
    ensures Reaches(w, owner, refs, x) <==> LawfullyReaches(w, owner, refs, x)
  {
    if Reaches(w, owner, refs, x) {
      var p :| Path(w, owner, refs, p) && p[|p| - 1] == x;
      LawfulIsPath(w, owner, refs, p);
    }
    if LawfullyReaches(w, owner, refs, x) {
      var p :| LawfulPath(w, owner, refs, p) && p[|p| - 1] == x;
      LawfulIsPath(w, owner, refs, p);
    }
  }

  /** Everything collected, even by a resolution that stops, is at the end of a path on which every RuleSet
      stays in its namespace or says that it takes rules of the other; and unless it stops, all of that is. */
  lemma {:induction false} CollectsLawfully(w: World, rank: Id -> int, lock: bool, owner: Owner, refs: seq<Ref>, h: nat, x: Id)
    requires Acyclic(w, rank) && Below(w, rank, owner, refs, h)
    ensures x in Walk(w, rank, lock, owner, refs, h).objects ==> LawfullyReaches(w, owner, refs, x)
    ensures !Walk(w, rank, lock, owner, refs, h).stopped && (lock ==> OnlyConflicts(w)) ==>
              (x in Walk(w, rank, lock, owner, refs, h).objects <==> LawfullyReaches(w, owner, refs, x))
  {
    hide Acyclic, Below, Walk, Reaches, LawfullyReaches, OnlyConflicts;
    ReachesLawfully(w, owner, refs, x);
    if x in Walk(w, rank, lock, owner, refs, h).objects { WalkSound(w, rank, lock, owner, refs, h, x); }
    if !Walk(w, rank, lock, owner, refs, h).stopped && (lock ==> OnlyConflicts(w)) {
      CollectsReachable(w, rank, lock, owner, refs, h, x);
    }
  }

  // ----- refusals

  /** What a RuleSet may not take gives an error and nothing else. */
  lemma RefusedAlone(w: World, rank: Id -> int, lock: bool, owner: Owner, ref: Ref, x: Id, h: nat)
    requires Acyclic(w, rank) && !MayTake(w, owner, x.ns)
    ensures !Allows(w, owner, x) && One(w, rank, lock, owner, ref, x, h) == Out([], [RefError(1, ref)], false)
  {
    hide Acyclic, MayTake, Allows, Walk;
    AllowsMeans(w, owner, x);
  }

  lemma {:induction false} RefusedHere(w: World, rank: Id -> int, lock: bool, owner: Owner, refs: seq<Ref>, h: nat, i: nat, x: Id)
    requires Acyclic(w, rank) && Below(w, rank, owner, refs, h) && !Walk(w, rank, lock, owner, refs, h).stopped
    requires i < |refs| && Finds(w, owner, refs[i], x) && !MayTake(w, owner, x.ns)
    ensures RefError(1, refs[i]) in Walk(w, rank, lock, owner, refs, h).errors
  {
    hide Acyclic, Below, Walk, One, Finds, MayTake, Allows;
    YieldHolds(w, rank, lock, owner, refs, h, i, x);
    RefusedAlone(w, rank, lock, owner, refs[i], x, h);
  }

  /** The errors of a RuleSet in reach are among those of the resolution. */
  lemma {:induction false} ErrorsComeUp(w: World, rank: Id -> int, lock: bool, owner: Owner, refs: seq<Ref>, h: nat, a: Id)
    requires Acyclic(w, rank) && Below(w, rank, owner, refs, h) && !Walk(w, rank, lock, owner, refs, h).stopped
    requires (lock ==> OnlyConflicts(w)) && Reaches(w, owner, refs, a) && IsRuleSet(a) && w.ruleSets(a).Some?
    ensures rank(a) >= 0 && Below(w, rank, OwnerOf(a, w.ruleSets(a).value), w.ruleSets(a).value.refs, rank(a))
    ensures var inner := Walk(w, rank, lock, OwnerOf(a, w.ruleSets(a).value), w.ruleSets(a).value.refs, rank(a));
            !inner.stopped && forall e :: e in inner.errors ==> e in Walk(w, rank, lock, owner, refs, h).errors
    decreases h
  {
    hide Acyclic, Below, Walk, Reaches, Finds;
    var b := ReachesSplit(w, owner, refs, a);
    var i :| 0 <= i < |refs| && Finds(w, owner, refs[i], b);
    YieldHolds(w, rank, lock, owner, refs, h, i, b);
    NestedBelow(w, rank, b);
    if b != a { ErrorsComeUp(w, rank, lock, OwnerOf(b, w.ruleSets(b).value), w.ruleSets(b).value.refs, rank(b), a); }
  }

  /** Whatever a RuleSet in reach refers to in another namespace without saying that it takes rules from
      there, by no policy, by `Same` or by an empty one, is reported with the second kind of error. */
  lemma {:induction false} RefusedIsReported(w: World, rank: Id -> int, lock: bool, owner: Owner, refs: seq<Ref>, h: nat,
                                            a: Id, i: nat, x: Id)
    requires Acyclic(w, rank) && Below(w, rank, owner, refs, h) && !Walk(w, rank, lock, owner, refs, h).stopped
    requires (lock ==> OnlyConflicts(w)) && Reaches(w, owner, refs, a) && IsRuleSet(a) && w.ruleSets(a).Some?
    requires var rs := w.ruleSets(a).value;
             && i < |rs.refs| && Finds(w, OwnerOf(a, rs), rs.refs[i], x) && x.ns != a.ns
             && rs.policy.from in [None, Some("Same"), Some("")]
    ensures RefError(1, w.ruleSets(a).value.refs[i]) in Walk(w, rank, lock, owner, refs, h).errors
    ensures !Yields(w, OwnerOf(a, w.ruleSets(a).value), w.ruleSets(a).value.refs, x)
  {
    hide Acyclic, Below, Walk, Reaches, Finds, Allows;
    var rs := w.ruleSets(a).value;
    ErrorsComeUp(w, rank, lock, owner, refs, h, a);
    RefusedHere(w, rank, lock, OwnerOf(a, rs), rs.refs, rank(a), i, x);
    AllowsMeans(w, OwnerOf(a, rs), x);
  }

  // ----- the other errors

  /** A reference that cannot be looked up gives the first kind of error. */
  lemma {:induction false} LookupReported(w: World, rank: Id -> int, lock: bool, owner: Owner, refs: seq<Ref>, h: nat, i: nat)
    requires Acyclic(w, rank) && Below(w, rank, owner, refs, h) && !Walk(w, rank, lock, owner, refs, h).stopped
    requires i < |refs| && LookUp(w, refs[i], owner.id.ns).None?
    ensures RefError(0, refs[i]) in Walk(w, rank, lock, owner, refs, h).errors
  {
    hide Acyclic, Below, Walk, Finds, Allows, LookUp, Each;
    RefsPrefix(w, rank, owner, refs, i, h);
    WalkHolds(w, rank, lock, owner, refs, i, h);
  }

  /** An object that may be taken and whose lock fails gives the third, and is not collected there. */
  lemma {:induction false} LockReported(w: World, rank: Id -> int, owner: Owner, refs: seq<Ref>, h: nat, i: nat, x: Id)
    requires Acyclic(w, rank) && Below(w, rank, owner, refs, h) && !Walk(w, rank, true, owner, refs, h).stopped
    requires i < |refs| && Finds(w, owner, refs[i], x) && MayTake(w, owner, x.ns) && w.lock(owner.id, x) == LockFailed
    ensures RefError(2, refs[i]) in Walk(w, rank, true, owner, refs, h).errors
    ensures IsRuleSet(x) && Allows(w, owner, x) ==> 0 <= rank(x) < h
    ensures One(w, rank, true, owner, refs[i], x, h).objects == []
  {
    hide Acyclic, Below, Walk, Finds, MayTake, Allows;
    YieldHolds(w, rank, true, owner, refs, h, i, x);
    AllowsMeans(w, owner, x);
  }
}
