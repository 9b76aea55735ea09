/** Ids within one bag: exactly when the entries of a SecRule get different ids. */
module IdBags {
  import opened Text
  import opened IdPool
  import opened IdClaims

  /** The id an entry has before anything is picked: its spec id, else the one granted at its
      index, else, at index 0, the annotation. 0 when a fresh one is picked. */
  function Fixed(r: Rule, metaId: int, index: nat): (id: int)
    ensures id >= 0
  {
    if metaId > 0 then metaId
    else if index < |r.granted| && r.granted[index] > 0 then r.granted[index]
    else if index == 0 && Id(r.annotation) > 0 then Id(r.annotation)
    else 0
  }

  function FixedAt(r: Rule, i: nat): int
    requires i < |r.bag|
  {
    Fixed(r, Id(r.bag[i]), i)
  }

  function Free(r: Rule, used: set<int>): set<int> { used - Held(r) }

  ghost predicate Distinct(ids: seq<int>) { forall i, j :: 0 <= i < j < |ids| ==> ids[i] != ids[j] }

  /** No two entries are fixed to the same id. */
  ghost predicate FixedApart(r: Rule) {
    forall i, j :: 0 <= i < j < |r.bag| && FixedAt(r, i) > 0 ==> FixedAt(r, i) != FixedAt(r, j)
  }

  /** An entry was given a fresh id that a later entry is fixed to. */
  ghost predicate PicksAhead(r: Rule, ids: seq<int>, i: nat, j: nat)
    requires |ids| == |r.bag|
  {
    i < j < |r.bag| && FixedAt(r, i) == 0 && FixedAt(r, j) > 0 && ids[i] == FixedAt(r, j)
  }

  /** No entry after a fresh one is fixed to an id that the rule holds. */
  ghost predicate HeldComeFirst(r: Rule) {
    forall i, j :: 0 <= i < j < |r.bag| && FixedAt(r, i) == 0 && FixedAt(r, j) > 0 ==> FixedAt(r, j) !in Held(r)
  }

  // ----- the ids one by one

  lemma ResolvedTo(r: Rule, metaId: int, index: nat, used: set<int>, pool: Pool)
    requires Resolve(r, metaId, index, used, pool).Ok?
    ensures var one, id := Resolve(r, metaId, index, used, pool).value, Fixed(r, metaId, index);
            && one.used == used + {one.id}
            && (if id > 0 then one.id == id else one.id !in used)
  {
    if Pick(pool, used).Some? {
      FreeInLeast(Start(pool), Max(pool), used);
      FreeInLeast(Min(pool), Start(pool) - 1, used);
    }
  }

  function Elements(ids: seq<int>): set<int> { set x | x in ids }

  /** Each entry has its fixed id, or one that neither others nor earlier entries have. */
  ghost predicate Given(r: Rule, free: set<int>, ids: seq<int>, k: nat)
    requires k < |ids| <= |r.bag|
  {
    if FixedAt(r, k) > 0 then ids[k] == FixedAt(r, k) else ids[k] !in free + Elements(ids[..k])
  }

  lemma {:induction false} BagGiven(r: Rule, free: set<int>, i: nat, a: Assignment)
    requires i <= |r.bag| && |a.ids| == i && a.used == free + Elements(a.ids) && ResolveBag(r, i, a).Ok?
    requires forall k :: 0 <= k < i ==> Given(r, free, a.ids, k)
    ensures var ids := ResolveBag(r, i, a).value.ids;
            |ids| == |r.bag| && forall k :: 0 <= k < |ids| ==> Given(r, free, ids, k)
    decreases |r.bag| - i
  {
    hide Resolve, Fixed;
    if i < |r.bag| {
      var one := Resolve(r, Id(r.bag[i]), i, a.used, a.pool).value;
      ResolvedTo(r, Id(r.bag[i]), i, a.used, a.pool);
      var b := Add(a, one);
      assert Elements(b.ids) == Elements(a.ids) + {one.id};
      forall k | 0 <= k < i + 1 ensures Given(r, free, b.ids, k) {
        if k < i {
          assert Given(r, free, a.ids, k) && b.ids[..k] == a.ids[..k] && b.ids[k] == a.ids[k];
        } else {
          assert b.ids[..k] == a.ids;
        }
      }
      BagGiven(r, free, i + 1, b);
    }
  }

  lemma {:induction false} AllocateGiven(r: Rule, used: set<int>, pool: Pool)
    requires !IsSingle(r) && Allocate(r, used, pool).Ok?
    ensures var ids := Allocate(r, used, pool).value.ids;
            |ids| == |r.bag| && forall k :: 0 <= k < |ids| ==> Given(r, Free(r, used), ids, k)
  {
    hide Resolve, Held, IsSingle, Fixed;
    if |r.bag| > 0 { BagGiven(r, Free(r, used), 0, Assignment([], 0, 0, Free(r, used), pool)); }
  }

  // ----- the exact condition

  /** The ids are pairwise different exactly when the fixed ones are and no fresh one is an id that
      a later entry is fixed to, which can only be an id the rule itself had freed. */
  lemma {:induction false} BagDistinctExactly(r: Rule, used: set<int>, pool: Pool)
    requires !IsSingle(r) && Allocate(r, used, pool).Ok?
    ensures var ids := Allocate(r, used, pool).value.ids;
            && |ids| == |r.bag|
            && (Distinct(ids) <==> FixedApart(r) &&
                                   !exists i, j :: PicksAhead(r, ids, i, j) && FixedAt(r, j) !in Free(r, used))
  {
    hide Allocate, IsSingle, Fixed, Held;
    var ids := Allocate(r, used, pool).value.ids;
    AllocateGiven(r, used, pool);
    forall i, j | PicksAhead(r, ids, i, j) ensures FixedAt(r, j) !in Free(r, used) { assert Given(r, Free(r, used), ids, i); }
    if FixedApart(r) && !exists i, j :: PicksAhead(r, ids, i, j) && FixedAt(r, j) !in Free(r, used) {
      forall i, j | 0 <= i < j < |ids| ensures ids[i] != ids[j] { PairApart(r, Free(r, used), ids, i, j); }
    }
    if Distinct(ids) {
      forall i, j | 0 <= i < j < |ids| ensures !PicksAhead(r, ids, i, j) && (FixedAt(r, i) > 0 ==> FixedAt(r, i) != FixedAt(r, j)) {
        assert Given(r, Free(r, used), ids, i) && Given(r, Free(r, used), ids, j);
        assert ids[i] != ids[j];
      }
    }
  }

  lemma PairApart(r: Rule, free: set<int>, ids: seq<int>, i: nat, j: nat)
    requires i < j < |ids| == |r.bag| && Given(r, free, ids, i) && Given(r, free, ids, j)
    requires FixedApart(r) && !PicksAhead(r, ids, i, j)
    ensures ids[i] != ids[j]
  {
    hide Fixed;
    assert ids[i] == ids[..j][i];
    assert ids[i] in Elements(ids[..j]);
  }

  /** In a reconcile, where every claim of the rule is in use, the freed ids are those it holds in
      its status and annotation. So moving a held id to a later entry is the only danger: if no
      entry after a fresh one is fixed to a held id, different fixed ids are enough. */
  lemma {:induction false} HeldIdsOnly(r: Rule, used: set<int>, pool: Pool)
    requires !IsSingle(r) && Allocate(r, used, pool).Ok? && Claims(r) <= used
    ensures forall j :: 0 <= j < |r.bag| && FixedAt(r, j) > 0 ==> (FixedAt(r, j) !in Free(r, used) <==> FixedAt(r, j) in Held(r))
    ensures FixedApart(r) && HeldComeFirst(r) ==> Distinct(Allocate(r, used, pool).value.ids)
  {
    hide Allocate, IsSingle, Fixed, Held, SpecClaims;
    BagDistinctExactly(r, used, pool);
    forall j | 0 <= j < |r.bag| && FixedAt(r, j) > 0 ensures FixedAt(r, j) in used { FixedClaimed(r, j); }
  }

  lemma FixedClaimed(r: Rule, j: nat)
    requires j < |r.bag| && FixedAt(r, j) > 0
    ensures FixedAt(r, j) in Claims(r)
  {
    if Id(r.bag[j]) > 0 {
      BagClaims(r, j);
    } else if j < |r.granted| && r.granted[j] > 0 {
      assert r.granted[j] in Held(r);
    }
  }

  // ----- a condition on the rule alone

  /** Whatever ids are in use, the rule's own among them, and whatever the pool. */
  ghost predicate AlwaysDistinct(r: Rule) {
    forall used, pool :: Claims(r) <= used && Allocate(r, used, pool).Ok? ==> Distinct(Allocate(r, used, pool).value.ids)
  }

  function Roomy(start: int, top: int): Pool { Pool(start, top, start, 0, 0, 0) }

  lemma {:induction false} Bounded(s: set<int>) returns (top: int)
    ensures top > 0 && forall x :: x in s ==> x <= top
  {
    top := 1;
    if x :| x in s {
      var rest := s - {x};
      top := Bounded(rest);
      assert forall y :: y in s ==> y in rest || y == x;
      if x > top { top := x; }
    }
  }

  /** A pool that reaches above everything in use has an id for the next entry. */
  lemma PickRoomy(pool: Pool, used: set<int>, top: int)
    requires 0 < Min(pool) <= Start(pool) <= top + 1 <= Max(pool) && forall x :: x in used ==> x <= top
    ensures Pick(pool, used).Some? && Start(pool) <= Pick(pool, used).value <= top + 1
    ensures var next := Advance(pool, Pick(pool, used).value);
            Min(next) == Min(pool) && Max(next) == Max(pool) && Min(pool) <= Start(next) <= top + 2
  {
    FreeInLeast(Start(pool), Max(pool), used);
    assert top + 1 !in used;
  }

  lemma {:induction false} RoomyOk(r: Rule, i: nat, a: Assignment, top: int)
    requires i <= |r.bag| && (forall x :: x in a.used ==> x <= top) && forall k :: 0 <= k < |r.bag| ==> FixedAt(r, k) <= top
    requires 0 < Min(a.pool) <= Start(a.pool) <= top + 1 && top + |r.bag| - i <= Max(a.pool) && top <= Max(a.pool)
    ensures ResolveBag(r, i, a).Ok?
    decreases |r.bag| - i
  {
    hide Pick, Advance;
    if i < |r.bag| {
      var one := Resolve(r, Id(r.bag[i]), i, a.used, a.pool);
      if FixedAt(r, i) > 0 {
        RoomyOk(r, i + 1, Add(a, one.value), top);
      } else {
        PickRoomy(a.pool, a.used, top);
        RoomyOk(r, i + 1, Add(a, one.value), top + 1);
      }
    }
  }

  lemma {:induction false} BagPrefix(r: Rule, i: nat, a: Assignment)
    requires i <= |r.bag| && ResolveBag(r, i, a).Ok?
    ensures |ResolveBag(r, i, a).value.ids| == |a.ids| + |r.bag| - i && a.ids <= ResolveBag(r, i, a).value.ids
    decreases |r.bag| - i
  {
    hide Resolve;
    if i < |r.bag| { BagPrefix(r, i + 1, Add(a, Resolve(r, Id(r.bag[i]), i, a.used, a.pool).value)); }
  }

  /** The first fresh entry gets the id the pool starts at, if it is free there. */
  lemma {:induction false} FirstFresh(r: Rule, i: nat, a: Assignment, first: nat, id: int)
    requires i <= first < |r.bag| && |a.ids| == i && ResolveBag(r, i, a).Ok?
    requires FixedAt(r, first) == 0 && forall k :: i <= k < first ==> FixedAt(r, k) > 0 && FixedAt(r, k) != id
    requires id !in a.used && Start(a.pool) == id <= Max(a.pool)
    ensures |ResolveBag(r, i, a).value.ids| == |r.bag| && ResolveBag(r, i, a).value.ids[first] == id
    decreases first - i
  {
    hide Advance;
    var one := Resolve(r, Id(r.bag[i]), i, a.used, a.pool).value;
    var b := Add(a, one);
    if i < first {
      assert FixedAt(r, i) > 0;
      FirstFresh(r, i + 1, b, first, id);
    } else {
      assert one.id == id && b.ids[i] == id;
      BagPrefix(r, i + 1, b);
    }
  }

  lemma {:induction false} EarliestFresh(r: Rule, i: nat) returns (first: nat)
    requires i < |r.bag| && FixedAt(r, i) == 0
    ensures first <= i && FixedAt(r, first) == 0 && forall k :: 0 <= k < first ==> FixedAt(r, k) > 0
  {
    hide Fixed;
    first := i;
    if k :| 0 <= k < i && FixedAt(r, k) == 0 { first := EarliestFresh(r, k); }
  }

  lemma RoomyAllocates(r: Rule, id: int, top: int)
    requires !IsSingle(r) && |r.bag| > 0 && 0 < id <= top && forall x :: x in Claims(r) ==> x <= top
    ensures Allocate(r, Claims(r), Roomy(id, top + |r.bag|)).Ok?
  {
    hide Resolve, ResolveBag, Fixed, Held, SpecClaims;
    forall k | 0 <= k < |r.bag| ensures FixedAt(r, k) <= top { if FixedAt(r, k) > 0 { FixedClaimed(r, k); } }
    RoomyOk(r, 0, Assignment([], 0, 0, Free(r, Claims(r)), Roomy(id, top + |r.bag|)), top);
  }

  /** A held id behind a fresh entry repeats with a pool that starts at it. */
  lemma {:induction false} HeldBehindFresh(r: Rule, i: nat, j: nat, top: int)
    requires !IsSingle(r) && i < j < |r.bag| && FixedAt(r, i) == 0 && FixedAt(r, j) > 0 && FixedAt(r, j) in Held(r)
    requires forall x :: x in Claims(r) ==> x <= top
    ensures var pool := Roomy(FixedAt(r, j), top + |r.bag|);
            Allocate(r, Claims(r), pool).Ok? && !Distinct(Allocate(r, Claims(r), pool).value.ids)
  {
    hide Resolve, ResolveBag, Fixed, Held, SpecClaims, Claims, Distinct, IsSingle;
    var id, used := FixedAt(r, j), Claims(r);
    var pool := Roomy(id, top + |r.bag|);
    FixedClaimed(r, j);
    RoomyAllocates(r, id, top);
    BagDistinctExactly(r, used, pool);
    if FixedApart(r) {
      var first := EarliestFresh(r, i);
      forall k | 0 <= k < first ensures FixedAt(r, k) != id { assert FixedAt(r, k) != FixedAt(r, j); }
      FirstFresh(r, 0, Assignment([], 0, 0, Free(r, used), pool), first, id);
      assert PicksAhead(r, Allocate(r, used, pool).value.ids, first, j);
    }
  }

  /** The ids of the bag are always different if and only if the fixed ones are and no entry after a
      fresh one is fixed to an id that the rule holds. */
  lemma {:induction false} AlwaysDistinctExactly(r: Rule)
    requires !IsSingle(r)
    ensures AlwaysDistinct(r) <==> FixedApart(r) && HeldComeFirst(r)
  {
    hide Allocate, IsSingle, Fixed, Held, SpecClaims, Claims, Distinct;
    if FixedApart(r) && HeldComeFirst(r) {
      forall used, pool | Claims(r) <= used && Allocate(r, used, pool).Ok? ensures Distinct(Allocate(r, used, pool).value.ids) {
        HeldIdsOnly(r, used, pool);
      }
    } else {
      var top := Bounded(Claims(r));
      if !FixedApart(r) {
        RoomyAllocates(r, 1, top);
        BagDistinctExactly(r, Claims(r), Roomy(1, top + |r.bag|));
      } else {
        var i, j :| 0 <= i < j < |r.bag| && FixedAt(r, i) == 0 && FixedAt(r, j) > 0 && FixedAt(r, j) in Held(r);
        HeldBehindFresh(r, i, j, top);
      }
    }
  }

  // ----- both ways to fail

  lemma {:induction false} FixedOk(r: Rule, i: nat, a: Assignment)
    requires i <= |r.bag| && forall k :: i <= k < |r.bag| ==> FixedAt(r, k) > 0
    ensures ResolveBag(r, i, a).Ok?
    decreases |r.bag| - i
  {
    if i < |r.bag| {
      var one := Resolve(r, Id(r.bag[i]), i, a.used, a.pool);
      assert FixedAt(r, i) > 0;
      FixedOk(r, i + 1, Add(a, one.value));
    }
  }

  /** Entries fixed to the same id are accepted and both get it, as when the spec takes for one
      entry the id that sticks to another. */
  lemma {:induction false} BagCanRepeat(id: int, other: int, used: set<int>, pool: Pool)
    requires id > 0
    ensures var r := Rule(None, false, false, [None, Some(id)], [id, other], id, None);
            Allocate(r, used, pool).Ok? && !Distinct(Allocate(r, used, pool).value.ids)
  {
    hide Resolve, Held, Distinct;
    var r := Rule(None, false, false, [None, Some(id)], [id, other], id, None);
    assert FixedAt(r, 0) == FixedAt(r, 1) == id;
    FixedOk(r, 0, Assignment([], 0, 0, Free(r, used), pool));
    BagDistinctExactly(r, used, pool);
  }

  /** A fresh id repeats when the pool picks one that the rule had freed and a later entry takes. */
  lemma {:induction false} FreshCanRepeat(id: int, spec: int, used: set<int>, pool: Pool)
    requires id > 0 && spec > 0 && Min(pool) <= Max(pool) && Pick(pool, used - {id} + {spec}) == Some(id)
    ensures var r := Rule(None, false, false, [Some(spec), None, Some(id)], [id], id, None);
            Allocate(r, used, pool).Ok? && !Distinct(Allocate(r, used, pool).value.ids)
  {
    hide Pick, Advance;
    var r := Rule(None, false, false, [Some(spec), None, Some(id)], [id], id, None);
    assert Held(r) == {id};
    var a := Assignment([], 0, 0, used - {id}, pool);
    var one := One(spec, Spec, used - {id} + {spec}, pool);
    var two := One(id, Auto, one.used + {id}, Advance(pool, id));
    var three := One(id, Spec, two.used + {id}, two.pool);
    var b := Add(a, one);
    var c := Add(b, two);
    assert ResolveBag(r, 3, Add(c, three)) == Ok(Add(c, three));
    assert ResolveBag(r, 2, c) == Ok(Add(c, three));
    assert ResolveBag(r, 1, b) == Ok(Add(c, three));
    assert ResolveBag(r, 0, a) == Ok(Add(c, three));
    var ids := Allocate(r, used, pool).value.ids;
    assert ids == [spec, id, id] && ids[1] == ids[2];
  }
}
