/** What a resolution collects, said without the resolver: the objects at the end of paths of
    allowed references. */
module RuleReach {
  import opened Text
  import opened RuleRefs

  /** A path from the owner: each object is one its predecessor refers to and allows. */
  ghost predicate Path(w: World, owner: Owner, refs: seq<Ref>, p: seq<Id>)
    decreases |p|
  {
    && p != [] && Yields(w, owner, refs, p[0])
    && (|p| > 1 ==>
          && IsRuleSet(p[0]) && w.ruleSets(p[0]).Some?
          && Path(w, OwnerOf(p[0], w.ruleSets(p[0]).value), w.ruleSets(p[0]).value.refs, p[1..]))
  }

  ghost predicate Reaches(w: World, owner: Owner, refs: seq<Ref>, x: Id) {
    exists p :: Path(w, owner, refs, p) && p[|p| - 1] == x
  }

  lemma ReachesNow(w: World, owner: Owner, refs: seq<Ref>, x: Id)
    requires Yields(w, owner, refs, x)
    ensures Reaches(w, owner, refs, x)
  {
    hide Yields;
    assert Path(w, owner, refs, [x]);
  }

  lemma ReachesThrough(w: World, owner: Owner, refs: seq<Ref>, a: Id, x: Id)
    requires Yields(w, owner, refs, a) && IsRuleSet(a) && w.ruleSets(a).Some?
    requires Reaches(w, OwnerOf(a, w.ruleSets(a).value), w.ruleSets(a).value.refs, x)
    ensures Reaches(w, owner, refs, x)
  {
    hide Yields;
    var q :| Path(w, OwnerOf(a, w.ruleSets(a).value), w.ruleSets(a).value.refs, q) && q[|q| - 1] == x;
    var p := [a] + q;
    assert p[1..] == q;
    assert Path(w, owner, refs, p);
  }

  /** What an owner reaches it finds itself or reaches through a RuleSet it finds. */
  lemma ReachesSplit(w: World, owner: Owner, refs: seq<Ref>, x: Id) returns (a: Id)
    requires Reaches(w, owner, refs, x)
    ensures Yields(w, owner, refs, a)
    ensures x == a || (IsRuleSet(a) && w.ruleSets(a).Some? &&
                       Reaches(w, OwnerOf(a, w.ruleSets(a).value), w.ruleSets(a).value.refs, x))
  {
    hide Yields;
    var p :| Path(w, owner, refs, p) && p[|p| - 1] == x;
    a := p[0];
    if |p| > 1 { assert p[1..][|p| - 2] == x; }
  }

  // ----- a ranking means that there is no cycle

  lemma {:induction false} PathDown(w: World, rank: Id -> int, owner: Owner, refs: seq<Ref>, p: seq<Id>, h: nat)
    requires Acyclic(w, rank) && Below(w, rank, owner, refs, h)
    requires Path(w, owner, refs, p) && IsRuleSet(p[|p| - 1])
    ensures 0 <= rank(p[|p| - 1]) < h
    decreases |p|
  {
    hide Acyclic, Yields;
    if |p| > 1 {
      assert Nests(w, owner, refs, p[0]);
      NestedBelow(w, rank, p[0]);
      var rs := w.ruleSets(p[0]).value;
      PathDown(w, rank, OwnerOf(p[0], rs), rs.refs, p[1..], rank(p[0]));
    } else {
      assert Nests(w, owner, refs, p[0]);
    }
  }

  /** RuleSets that can be ranked never lead back to themselves. */
  lemma {:induction false} NoWayBack(w: World, rank: Id -> int, a: Id)
    requires Acyclic(w, rank) && rank(a) >= 0 && IsRuleSet(a) && w.ruleSets(a).Some?
    ensures !Reaches(w, OwnerOf(a, w.ruleSets(a).value), w.ruleSets(a).value.refs, a)
  {
    hide Acyclic, Below, Yields;
    var o, refs := OwnerOf(a, w.ruleSets(a).value), w.ruleSets(a).value.refs;
    NestedBelow(w, rank, a);
    if Reaches(w, o, refs, a) {
      var p :| Path(w, o, refs, p) && p[|p| - 1] == a;
      PathDown(w, rank, o, refs, p, rank(a));
    }
  }

  // ----- everything collected is reached

  lemma YieldsFrom(w: World, owner: Owner, refs: seq<Ref>, i: nat, x: Id)
    requires i < |refs| && Finds(w, owner, refs[i], x) && Allows(w, owner, x)
    ensures Yields(w, owner, refs, x)
  {
    hide Finds, Allows;
  }

  lemma MoreRefs(w: World, owner: Owner, refs: seq<Ref>, n: nat, x: Id)
    requires n <= |refs| && Reaches(w, owner, refs[..n], x)
    ensures Reaches(w, owner, refs, x)
  {
    hide Reaches, Finds, Allows;
    var a := ReachesSplit(w, owner, refs[..n], x);
    var i :| 0 <= i < n && Finds(w, owner, refs[..n][i], a);
    assert refs[..n][i] == refs[i];
    YieldsFrom(w, owner, refs, i, a);
    if x == a { ReachesNow(w, owner, refs, x); } else { ReachesThrough(w, owner, refs, a, x); }
  }

  lemma {:induction false} WalkSound(w: World, rank: Id -> int, lock: bool, owner: Owner, refs: seq<Ref>, h: nat, x: Id)
    requires Acyclic(w, rank) && Below(w, rank, owner, refs, h)
    requires x in Walk(w, rank, lock, owner, refs, h).objects
    ensures Reaches(w, owner, refs, x)
    decreases h, 3, |refs|
  {
    hide Acyclic, Below, Reaches, Finds, Allows, Resolve;
    var n := |refs| - 1;
    assert refs[..n + 1] == refs;
    RefsPrefix(w, rank, owner, refs, n, h);
    WalkStep(w, rank, lock, owner, refs, n, h);
    if x in Walk(w, rank, lock, owner, refs[..n], h).objects {
      WalkSound(w, rank, lock, owner, refs[..n], h, x);
      MoreRefs(w, owner, refs, n, x);
    } else {
      ResolveSound(w, rank, lock, owner, refs, n, h, x);
    }
  }

  lemma {:induction false} ResolveSound(w: World, rank: Id -> int, lock: bool, owner: Owner, refs: seq<Ref>, i: nat,
                                        h: nat, x: Id)
    requires Acyclic(w, rank) && i < |refs|
    requires forall y :: Finds(w, owner, refs[i], y) && IsRuleSet(y) && Allows(w, owner, y) ==> 0 <= rank(y) < h
    requires x in Resolve(w, rank, lock, owner, refs[i], h).objects
    ensures Reaches(w, owner, refs, x)
    decreases h, 2, 0
  {
    hide Acyclic, Reaches, Finds, Allows, Each, One;
    FindsItems(w, owner, refs[i]);
    var items := LookUp(w, refs[i], owner.id.ns).value;
    var y := EachSound(w, rank, lock, owner, refs[i], items, h, x);
    OneSound(w, rank, lock, owner, refs, i, y, h, x);
  }

  lemma {:induction false} EachSound(w: World, rank: Id -> int, lock: bool, owner: Owner, ref: Ref, items: seq<Id>, h: nat,
                                     x: Id) returns (y: Id)
    requires Acyclic(w, rank) && RefBelow(w, rank, owner, items, h)
    requires x in Each(w, rank, lock, owner, ref, items, h).objects
    ensures y in items && x in One(w, rank, lock, owner, ref, y, h).objects
    decreases |items|
  {
    hide Acyclic, One, Allows;
    var n := |items| - 1;
    if x in Each(w, rank, lock, owner, ref, items[..n], h).objects {
      y := EachSound(w, rank, lock, owner, ref, items[..n], h, x);
    } else {
      y := items[n];
    }
  }

  lemma {:induction false} OneSound(w: World, rank: Id -> int, lock: bool, owner: Owner, refs: seq<Ref>, i: nat, y: Id,
                                    h: nat, x: Id)
    requires Acyclic(w, rank) && i < |refs| && Finds(w, owner, refs[i], y)
    requires IsRuleSet(y) && Allows(w, owner, y) ==> 0 <= rank(y) < h
    requires x in One(w, rank, lock, owner, refs[i], y, h).objects
    ensures Reaches(w, owner, refs, x)
    decreases h, 0, 0
  {
    hide Reaches, Finds, Allows, Walk, Acyclic;
    YieldsFrom(w, owner, refs, i, y);
    if x == y {
      ReachesNow(w, owner, refs, x);
    } else {
      var rs := w.ruleSets(y).value;
      NestedBelow(w, rank, y);
      WalkSound(w, rank, lock, OwnerOf(y, rs), rs.refs, rank(y), x);
      ReachesThrough(w, owner, refs, y, x);
    }
  }

  // ----- everything reached is collected

  /** No lock fails except for a conflict. */
  ghost predicate OnlyConflicts(w: World) { forall a, b :: w.lock(a, b) != LockFailed }

  lemma {:induction false} WalkHolds(w: World, rank: Id -> int, lock: bool, owner: Owner, refs: seq<Ref>, i: nat, h: nat)
    requires Acyclic(w, rank) && Below(w, rank, owner, refs, h) && i < |refs|
    requires !Walk(w, rank, lock, owner, refs, h).stopped
    requires forall x :: Finds(w, owner, refs[i], x) && IsRuleSet(x) && Allows(w, owner, x) ==> 0 <= rank(x) < h
    ensures var one, all := Resolve(w, rank, lock, owner, refs[i], h), Walk(w, rank, lock, owner, refs, h);
            && !one.stopped && (forall x :: x in one.objects ==> x in all.objects)
            && (one.errors != [] ==> all.errors != []) && forall e :: e in one.errors ==> e in all.errors
    decreases |refs|
  {
    hide Acyclic, Below, Finds, Allows, Resolve;
    var n := |refs| - 1;
    assert refs[..n + 1] == refs;
    RefsPrefix(w, rank, owner, refs, n, h);
    WalkStep(w, rank, lock, owner, refs, n, h);
    if i < n {
      assert refs[..n][i] == refs[i];
      WalkHolds(w, rank, lock, owner, refs[..n], i, h);
    }
  }

  lemma {:induction false} EachHolds(w: World, rank: Id -> int, lock: bool, owner: Owner, ref: Ref, items: seq<Id>, h: nat, y: Id)
    requires Acyclic(w, rank) && RefBelow(w, rank, owner, items, h) && y in items
    requires !Each(w, rank, lock, owner, ref, items, h).stopped
    ensures var one, all := One(w, rank, lock, owner, ref, y, h), Each(w, rank, lock, owner, ref, items, h);
            && !one.stopped && (forall x :: x in one.objects ==> x in all.objects)
            && (one.errors != [] ==> all.errors != []) && forall e :: e in one.errors ==> e in all.errors
    decreases |items|
  {
    hide Acyclic, One, Allows;
    var n := |items| - 1;
    if y != items[n] {
      assert items == items[..n] + [items[n]];
      EachHolds(w, rank, lock, owner, ref, items[..n], h, y);
    }
  }

  /** What the owner finds is looked at, unless the resolution stops. */
  lemma {:induction false} YieldHolds(w: World, rank: Id -> int, lock: bool, owner: Owner, refs: seq<Ref>, h: nat, i: nat, y: Id)
    requires Acyclic(w, rank) && Below(w, rank, owner, refs, h) && i < |refs| && Finds(w, owner, refs[i], y)
    requires !Walk(w, rank, lock, owner, refs, h).stopped
    ensures IsRuleSet(y) && Allows(w, owner, y) ==> 0 <= rank(y) < h
    ensures var one, all := One(w, rank, lock, owner, refs[i], y, h), Walk(w, rank, lock, owner, refs, h);
            && !one.stopped && (forall x :: x in one.objects ==> x in all.objects)
            && (one.errors != [] ==> all.errors != []) && forall e :: e in one.errors ==> e in all.errors
  {
    hide Acyclic, Below, Walk, Each, One, Allows;
    RefsPrefix(w, rank, owner, refs, i, h);
    WalkHolds(w, rank, lock, owner, refs, i, h);
    FindsItems(w, owner, refs[i]);
    EachHolds(w, rank, lock, owner, refs[i], LookUp(w, refs[i], owner.id.ns).value, h, y);
  }

  lemma {:induction false} WalkComplete(w: World, rank: Id -> int, lock: bool, owner: Owner, refs: seq<Ref>, h: nat, x: Id)
    requires Acyclic(w, rank) && Below(w, rank, owner, refs, h) && (lock ==> OnlyConflicts(w))
    requires !Walk(w, rank, lock, owner, refs, h).stopped && Reaches(w, owner, refs, x)
    ensures x in Walk(w, rank, lock, owner, refs, h).objects
    ensures IsRuleSet(x) ==> w.ruleSets(x).Some?
    decreases h
  {
    hide Acyclic, Below, Walk, Reaches, Finds;
    var a := ReachesSplit(w, owner, refs, x);
    var i :| 0 <= i < |refs| && Finds(w, owner, refs[i], a);
    YieldHolds(w, rank, lock, owner, refs, h, i, a);
    if x != a {
      var rs := w.ruleSets(a).value;
      NestedBelow(w, rank, a);
      WalkComplete(w, rank, lock, OwnerOf(a, rs), rs.refs, rank(a), x);
    }
  }

  /** A resolution that does not stop collects exactly what can be reached along references that
      each owner on the way allows. */
  lemma {:induction false} CollectsReachable(w: World, rank: Id -> int, lock: bool, owner: Owner, refs: seq<Ref>, h: nat, x: Id)
    requires Acyclic(w, rank) && Below(w, rank, owner, refs, h) && (lock ==> OnlyConflicts(w))
    requires !Walk(w, rank, lock, owner, refs, h).stopped
    ensures x in Walk(w, rank, lock, owner, refs, h).objects <==> Reaches(w, owner, refs, x)
  {
    hide Acyclic, Below, Walk, Reaches, OnlyConflicts;
    if x in Walk(w, rank, lock, owner, refs, h).objects {
      WalkSound(w, rank, lock, owner, refs, h, x);
    } else if Reaches(w, owner, refs, x) {
      WalkComplete(w, rank, lock, owner, refs, h, x);
    }
  }

  // ----- locking

  lemma {:induction false} LockSame(w: World, rank: Id -> int, owner: Owner, refs: seq<Ref>, h: nat)
    requires Acyclic(w, rank) && Below(w, rank, owner, refs, h) && OnlyConflicts(w)
    ensures Walk(w, rank, true, owner, refs, h) == Walk(w, rank, false, owner, refs, h)
    decreases h, 3, |refs|
  {
    hide Acyclic, Below, Finds, Allows, Each;
    if refs != [] {
      var n := |refs| - 1;
      assert refs[..n + 1] == refs;
      RefsPrefix(w, rank, owner, refs, n, h);
      WalkStep(w, rank, true, owner, refs, n, h);
      WalkStep(w, rank, false, owner, refs, n, h);
      LockSame(w, rank, owner, refs[..n], h);
      FindsItems(w, owner, refs[n]);
      var items := LookUp(w, refs[n], owner.id.ns);
      if items.Some? { LockSameEach(w, rank, owner, refs[n], items.value, h); }
    }
  }

  lemma {:induction false} LockSameEach(w: World, rank: Id -> int, owner: Owner, ref: Ref, items: seq<Id>, h: nat)
    requires Acyclic(w, rank) && RefBelow(w, rank, owner, items, h) && OnlyConflicts(w)
    ensures Each(w, rank, true, owner, ref, items, h) == Each(w, rank, false, owner, ref, items, h)
    decreases h, 2, |items|
  {
    hide Acyclic, Allows, Walk;
    if items != [] {
      var n := |items| - 1;
      LockSameEach(w, rank, owner, ref, items[..n], h);
      var x := items[n];
      if Allows(w, owner, x) && IsRuleSet(x) && w.ruleSets(x).Some? {
        NestedBelow(w, rank, x);
        LockSame(w, rank, OwnerOf(x, w.ruleSets(x).value), w.ruleSets(x).value.refs, rank(x));
      }
    }
  }

  // ----- errors and stops

  /** The reference cannot be looked up, or finds an object its owner does not allow. */
  ghost predicate BadRef(w: World, owner: Owner, ref: Ref) {
    LookUp(w, ref, owner.id.ns).None? || exists x :: Finds(w, owner, ref, x) && !Allows(w, owner, x)
  }

  ghost predicate Trouble(w: World, owner: Owner, refs: seq<Ref>) {
    exists i :: 0 <= i < |refs| && BadRef(w, owner, refs[i])
  }

  ghost predicate TroubleAt(w: World, r: Id) {
    IsRuleSet(r) && w.ruleSets(r).Some? && Trouble(w, OwnerOf(r, w.ruleSets(r).value), w.ruleSets(r).value.refs)
  }

  /** The owner, or a RuleSet it reaches, has a bad reference. */
  ghost predicate TroubleBelow(w: World, owner: Owner, refs: seq<Ref>) {
    Trouble(w, owner, refs) || exists r :: Reaches(w, owner, refs, r) && TroubleAt(w, r)
  }

  lemma TroubleThrough(w: World, owner: Owner, refs: seq<Ref>, a: Id)
    requires Yields(w, owner, refs, a) && IsRuleSet(a) && w.ruleSets(a).Some?
    requires TroubleBelow(w, OwnerOf(a, w.ruleSets(a).value), w.ruleSets(a).value.refs)
    ensures TroubleBelow(w, owner, refs)
  {
    hide Yields, Reaches, Trouble;
    var o, rs := OwnerOf(a, w.ruleSets(a).value), w.ruleSets(a).value.refs;
    if Trouble(w, o, rs) {
      ReachesNow(w, owner, refs, a);
    } else {
      var r :| Reaches(w, o, rs, r) && TroubleAt(w, r);
      ReachesThrough(w, owner, refs, a, r);
    }
  }

  lemma MoreTrouble(w: World, owner: Owner, refs: seq<Ref>, n: nat)
    requires n <= |refs| && TroubleBelow(w, owner, refs[..n])
    ensures TroubleBelow(w, owner, refs)
  {
    hide Reaches, BadRef, TroubleAt;
    if Trouble(w, owner, refs[..n]) {
      var i :| 0 <= i < n && BadRef(w, owner, refs[..n][i]);
      assert refs[..n][i] == refs[i];
    } else {
      var r :| Reaches(w, owner, refs[..n], r) && TroubleAt(w, r);
      MoreRefs(w, owner, refs, n, r);
    }
  }

  lemma {:induction false} ErrorsSound(w: World, rank: Id -> int, owner: Owner, refs: seq<Ref>, h: nat)
    requires Acyclic(w, rank) && Below(w, rank, owner, refs, h)
    requires Walk(w, rank, false, owner, refs, h).errors != []
    ensures TroubleBelow(w, owner, refs)
    decreases h, 3, |refs|
  {
    hide Acyclic, Below, Finds, Allows, Each, Reaches, TroubleBelow;
    var n := |refs| - 1;
    assert refs[..n + 1] == refs;
    RefsPrefix(w, rank, owner, refs, n, h);
    WalkStep(w, rank, false, owner, refs, n, h);
    if Walk(w, rank, false, owner, refs[..n], h).errors != [] {
      ErrorsSound(w, rank, owner, refs[..n], h);
      MoreTrouble(w, owner, refs, n);
    } else {
      FindsItems(w, owner, refs[n]);
      var items := LookUp(w, refs[n], owner.id.ns);
      if items.None? {
        TroubleHere(w, owner, refs, n);
      } else {
        ErrorsSoundEach(w, rank, owner, refs, n, items.value, h);
      }
    }
  }

  lemma TroubleHere(w: World, owner: Owner, refs: seq<Ref>, i: nat)
    requires i < |refs| && BadRef(w, owner, refs[i])
    ensures TroubleBelow(w, owner, refs)
  {
    hide BadRef, Reaches;
  }

  lemma {:induction false} ErrorsSoundEach(w: World, rank: Id -> int, owner: Owner, refs: seq<Ref>, i: nat, items: seq<Id>, h: nat)
    requires Acyclic(w, rank) && RefBelow(w, rank, owner, items, h) && i < |refs|
    requires forall x :: x in items ==> Finds(w, owner, refs[i], x)
    requires Each(w, rank, false, owner, refs[i], items, h).errors != []
    ensures TroubleBelow(w, owner, refs)
    decreases h, 2, |items|
  {
    hide Acyclic, Allows, Finds, Walk, TroubleBelow;
    var n := |items| - 1;
    var x := items[n];
    if Each(w, rank, false, owner, refs[i], items[..n], h).errors != [] {
      ErrorsSoundEach(w, rank, owner, refs, i, items[..n], h);
    } else if !Allows(w, owner, x) {
      TroubleHere(w, owner, refs, i);
    } else {
      NestedBelow(w, rank, x);
      ErrorsSound(w, rank, OwnerOf(x, w.ruleSets(x).value), w.ruleSets(x).value.refs, rank(x));
      YieldsFrom(w, owner, refs, i, x);
      TroubleThrough(w, owner, refs, x);
    }
  }

  lemma {:induction false} ErrorsComplete(w: World, rank: Id -> int, owner: Owner, refs: seq<Ref>, h: nat)
    requires Acyclic(w, rank) && Below(w, rank, owner, refs, h) && TroubleBelow(w, owner, refs)
    requires !Walk(w, rank, false, owner, refs, h).stopped
    ensures Walk(w, rank, false, owner, refs, h).errors != []
    decreases h
  {
    hide Acyclic, Below, Walk, Reaches, Finds, Trouble;
    if Trouble(w, owner, refs) {
      TroubleShows(w, rank, owner, refs, h);
    } else {
      var r :| Reaches(w, owner, refs, r) && TroubleAt(w, r);
      var a := ReachesSplit(w, owner, refs, r);
      var i :| 0 <= i < |refs| && Finds(w, owner, refs[i], a);
      YieldHolds(w, rank, false, owner, refs, h, i, a);
      NestedBelow(w, rank, a);
      ErrorsComplete(w, rank, OwnerOf(a, w.ruleSets(a).value), w.ruleSets(a).value.refs, rank(a));
    }
  }

  lemma {:induction false} TroubleShows(w: World, rank: Id -> int, owner: Owner, refs: seq<Ref>, h: nat)
    requires Acyclic(w, rank) && Below(w, rank, owner, refs, h) && Trouble(w, owner, refs)
    requires !Walk(w, rank, false, owner, refs, h).stopped
    ensures Walk(w, rank, false, owner, refs, h).errors != []
  {
    hide Acyclic, Below, Walk, Finds, Each, Allows;
    var i :| 0 <= i < |refs| && BadRef(w, owner, refs[i]);
    if LookUp(w, refs[i], owner.id.ns).None? {
      RefsPrefix(w, rank, owner, refs, i, h);
      WalkHolds(w, rank, false, owner, refs, i, h);
    } else {
      var x :| Finds(w, owner, refs[i], x) && !Allows(w, owner, x);
      YieldHolds(w, rank, false, owner, refs, h, i, x);
    }
  }

  /** A resolution that does not stop reports errors exactly when the owner or a RuleSet it reaches
      has a reference that finds nothing to look up, or an object that is not allowed. */
  lemma {:induction false} ErrorsExact(w: World, rank: Id -> int, owner: Owner, refs: seq<Ref>, h: nat)
    requires Acyclic(w, rank) && Below(w, rank, owner, refs, h)
    requires !Walk(w, rank, false, owner, refs, h).stopped
    ensures Walk(w, rank, false, owner, refs, h).errors != [] <==> TroubleBelow(w, owner, refs)
  {
    hide Acyclic, Below, Walk, TroubleBelow;
    if Walk(w, rank, false, owner, refs, h).errors != [] {
      ErrorsSound(w, rank, owner, refs, h);
    } else if TroubleBelow(w, owner, refs) {
      ErrorsComplete(w, rank, owner, refs, h);
    }
  }

  lemma {:induction false} StopSound(w: World, rank: Id -> int, lock: bool, owner: Owner, refs: seq<Ref>, h: nat) returns (r: Id)
    requires Acyclic(w, rank) && Below(w, rank, owner, refs, h) && Walk(w, rank, lock, owner, refs, h).stopped
    ensures Reaches(w, owner, refs, r) && IsRuleSet(r) && w.ruleSets(r).None?
    decreases h, 3, |refs|
  {
    hide Acyclic, Below, Finds, Allows, Each, Reaches;
    var n := |refs| - 1;
    assert refs[..n + 1] == refs;
    RefsPrefix(w, rank, owner, refs, n, h);
    WalkStep(w, rank, lock, owner, refs, n, h);
    if Walk(w, rank, lock, owner, refs[..n], h).stopped {
      r := StopSound(w, rank, lock, owner, refs[..n], h);
      MoreRefs(w, owner, refs, n, r);
    } else {
      FindsItems(w, owner, refs[n]);
      r := StopSoundEach(w, rank, lock, owner, refs, n, LookUp(w, refs[n], owner.id.ns).value, h);
    }
  }

  lemma {:induction false} StopSoundEach(w: World, rank: Id -> int, lock: bool, owner: Owner, refs: seq<Ref>, i: nat,
                                         items: seq<Id>, h: nat) returns (r: Id)
    requires Acyclic(w, rank) && RefBelow(w, rank, owner, items, h) && i < |refs|
    requires forall x :: x in items ==> Finds(w, owner, refs[i], x)
    requires Each(w, rank, lock, owner, refs[i], items, h).stopped
    ensures Reaches(w, owner, refs, r) && IsRuleSet(r) && w.ruleSets(r).None?
    decreases h, 2, |items|
  {
    hide Acyclic, Allows, Finds, Walk, Reaches;
    var n := |items| - 1;
    var x := items[n];
    if Each(w, rank, lock, owner, refs[i], items[..n], h).stopped {
      r := StopSoundEach(w, rank, lock, owner, refs, i, items[..n], h);
    } else {
      YieldsFrom(w, owner, refs, i, x);
      if w.ruleSets(x).None? {
        r := x;
        ReachesNow(w, owner, refs, x);
      } else {
        NestedBelow(w, rank, x);
        r := StopSound(w, rank, lock, OwnerOf(x, w.ruleSets(x).value), w.ruleSets(x).value.refs, rank(x));
        ReachesThrough(w, owner, refs, x, r);
      }
    }
  }

  /** A resolution stops exactly when it reaches a RuleSet it cannot read. */
  lemma {:induction false} StopsExactly(w: World, rank: Id -> int, lock: bool, owner: Owner, refs: seq<Ref>, h: nat)
    requires Acyclic(w, rank) && Below(w, rank, owner, refs, h) && (lock ==> OnlyConflicts(w))
    ensures Walk(w, rank, lock, owner, refs, h).stopped <==>
            exists r :: Reaches(w, owner, refs, r) && IsRuleSet(r) && w.ruleSets(r).None?
  {
    hide Acyclic, Below, Walk, Reaches, OnlyConflicts;
    if Walk(w, rank, lock, owner, refs, h).stopped {
      var r := StopSound(w, rank, lock, owner, refs, h);
    } else {
      forall r | Reaches(w, owner, refs, r) && IsRuleSet(r) ensures w.ruleSets(r).Some? {
        WalkComplete(w, rank, lock, owner, refs, h, r);
      }
    }
  }

  // ----- order

  ghost predicate LeadsTo(w: World, r: Id, x: Id) {
    IsRuleSet(r) && w.ruleSets(r).Some? && Reaches(w, OwnerOf(r, w.ruleSets(r).value), w.ruleSets(r).value.refs, x)
  }

  /** Everything a RuleSet leads to stands before it. */
  ghost predicate Ordered(w: World, s: seq<Id>) {
    forall k, x :: 0 <= k < |s| && LeadsTo(w, s[k], x) ==> x in s[..k]
  }

  lemma OrderedJoin(w: World, a: seq<Id>, b: seq<Id>)
    requires Ordered(w, a) && Ordered(w, b)
    ensures Ordered(w, a + b)
  {
    hide LeadsTo;
    var s := a + b;
    forall k, x | 0 <= k < |s| && LeadsTo(w, s[k], x) ensures x in s[..k] {
      if k < |a| {
        assert s[k] == a[k] && s[..k] == a[..k];
      } else {
        assert s[k] == b[k - |a|] && s[..k] == a + b[..k - |a|];
      }
    }
  }

  lemma OrderedOne(w: World, a: seq<Id>, r: Id)
    requires Ordered(w, a) && forall x :: LeadsTo(w, r, x) ==> x in a
    ensures Ordered(w, a + [r])
  {
    hide LeadsTo;
    var s := a + [r];
    forall k, x | 0 <= k < |s| && LeadsTo(w, s[k], x) ensures x in s[..k] {
      if k < |a| {
        assert s[k] == a[k] && s[..k] == a[..k];
      } else {
        assert s[k] == r && s[..k] == a;
      }
    }
  }

  /** In what a resolution collects, every RuleSet follows everything it leads to. */
  lemma {:induction false} WalkOrdered(w: World, rank: Id -> int, lock: bool, owner: Owner, refs: seq<Ref>, h: nat)
    requires Acyclic(w, rank) && Below(w, rank, owner, refs, h) && (lock ==> OnlyConflicts(w))
    ensures Ordered(w, Walk(w, rank, lock, owner, refs, h).objects)
    decreases h, 3, |refs|
  {
    hide Acyclic, Below, Finds, Allows, Each, Ordered, OnlyConflicts;
    if refs == [] {
      NothingOrdered(w);
    } else {
      var n := |refs| - 1;
      assert refs[..n + 1] == refs;
      RefsPrefix(w, rank, owner, refs, n, h);
      WalkStep(w, rank, lock, owner, refs, n, h);
      WalkOrdered(w, rank, lock, owner, refs[..n], h);
      FindsItems(w, owner, refs[n]);
      NothingOrdered(w);
      var items := LookUp(w, refs[n], owner.id.ns);
      if items.Some? { EachOrdered(w, rank, lock, owner, refs[n], items.value, h); }
      OrderedJoin(w, Walk(w, rank, lock, owner, refs[..n], h).objects, Resolve(w, rank, lock, owner, refs[n], h).objects);
    }
  }

  lemma NothingOrdered(w: World)
    ensures Ordered(w, [])
  {
  }

  lemma {:induction false} EachOrdered(w: World, rank: Id -> int, lock: bool, owner: Owner, ref: Ref, items: seq<Id>, h: nat)
    requires Acyclic(w, rank) && RefBelow(w, rank, owner, items, h) && (lock ==> OnlyConflicts(w))
    ensures Ordered(w, Each(w, rank, lock, owner, ref, items, h).objects)
    decreases h, 2, |items|
  {
    hide Acyclic, Allows, One, Ordered, OnlyConflicts;
    if items == [] {
      NothingOrdered(w);
    } else {
      var n := |items| - 1;
      EachOrdered(w, rank, lock, owner, ref, items[..n], h);
      OneOrdered(w, rank, lock, owner, ref, items[n], h);
      OrderedJoin(w, Each(w, rank, lock, owner, ref, items[..n], h).objects, One(w, rank, lock, owner, ref, items[n], h).objects);
    }
  }

  lemma {:induction false} OneOrdered(w: World, rank: Id -> int, lock: bool, owner: Owner, ref: Ref, x: Id, h: nat)
    requires Acyclic(w, rank) && (IsRuleSet(x) && Allows(w, owner, x) ==> 0 <= rank(x) < h) && (lock ==> OnlyConflicts(w))
    ensures Ordered(w, One(w, rank, lock, owner, ref, x, h).objects)
    decreases h, 1, 0
  {
    hide Acyclic, Allows, Walk, Ordered, Reaches, OnlyConflicts;
    NothingOrdered(w);
    if IsRuleSet(x) && Allows(w, owner, x) && w.ruleSets(x).Some? {
      var rs := w.ruleSets(x).value;
      NestedBelow(w, rank, x);
      WalkOrdered(w, rank, lock, OwnerOf(x, rs), rs.refs, rank(x));
      var inner := Walk(w, rank, lock, OwnerOf(x, rs), rs.refs, rank(x));
      if !inner.stopped {
        forall y | LeadsTo(w, x, y) ensures y in inner.objects {
          WalkComplete(w, rank, lock, OwnerOf(x, rs), rs.refs, rank(x), y);
        }
        OrderedOne(w, inner.objects, x);
      }
    } else if !IsRuleSet(x) {
      assert [] + [x] == [x];
      OrderedOne(w, [], x);
    }
  }
}
