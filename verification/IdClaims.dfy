/** Which SecRule claims which rule id, and the reconcile step that assigns them. */
module IdClaims {
  import opened Text
  import opened IdPool

  /** What a SecRule says about its ids. `meta` and the bag entries hold `metadata.id` where
      metadata is present; `granted` is `status.assignedIds`; the annotation is what parsing it
      as a number yields. */
  datatype Rule = Rule(
    meta: Option<int>, hasMatch: bool, hasActions: bool, bag: seq<Option<int>>,
    granted: seq<int>, ruleId: int, annotation: Option<int>)

  datatype Source = Spec | Auto | Mixed | NoSource

  predicate IsSingle(r: Rule) {
    r.meta.Some? || r.hasMatch || (r.hasActions && |r.bag| == 0)
  }

  function Id(m: Option<int>): int { if m.Some? then m.value else 0 }

  // ----- claims

  function Positive(s: set<int>): set<int> { set x | x in s && x > 0 }

  function BagIds(r: Rule): set<int> { set i | 0 <= i < |r.bag| :: Id(r.bag[i]) }

  /** The ids a rule fixes in its spec. */
  function SpecClaims(r: Rule): set<int> { Positive({Id(r.meta)} + BagIds(r)) }

  /** The ids a rule holds in its status and annotation. */
  function Held(r: Rule): set<int> {
    (set x | x in r.granted) + (if r.ruleId > 0 then {r.ruleId} else {}) + (if r.annotation.Some? then {r.annotation.value} else {})
  }

  function Claims(r: Rule): set<int> { SpecClaims(r) + Positive(Held(r)) }

  function AllClaims(rules: seq<Rule>): set<int> {
    set i, x | 0 <= i < |rules| && x in Claims(rules[i]) :: x
  }

  // ----- one id

  datatype One = One(id: int, source: Source, used: set<int>, pool: Pool)

  /** Why an assignment stopped, and the pool it left behind. */
  datatype Stop = Stop(why: Failure, pool: Pool)

  /** Spec id, else the sticky assignment of this index, else for index 0 the sticky
      annotation, else a fresh id. */
  function Resolve(r: Rule, metaId: int, index: nat, used: set<int>, pool: Pool): Result<One, Stop> {
    if metaId > 0 then Ok(One(metaId, Spec, used + {metaId}, pool))
    else if index < |r.granted| && r.granted[index] > 0 then
      Ok(One(r.granted[index], Auto, used + {r.granted[index]}, pool))
    else if index == 0 && Id(r.annotation) > 0 then
      Ok(One(Id(r.annotation), Auto, used + {Id(r.annotation)}, pool))
    else if Max(pool) < Min(pool) then Err(Stop(BadBounds, pool))
    else
      match Pick(pool, used)
      case None => Err(Stop(Exhausted, pool))
      case Some(id) => Ok(One(id, Auto, used + {id}, Advance(pool, id)))
  }

  datatype Assignment = Assignment(ids: seq<int>, autos: nat, specs: nat, used: set<int>, pool: Pool)

  function Add(a: Assignment, one: One): Assignment {
    if one.source == Spec then Assignment(a.ids + [one.id], a.autos, a.specs + 1, one.used, one.pool)
    else Assignment(a.ids + [one.id], a.autos + 1, a.specs, one.used, one.pool)
  }

  /** The bag entries from `i` on. */
  function ResolveBag(r: Rule, i: nat, a: Assignment): Result<Assignment, Stop>
    requires i <= |r.bag|
    decreases |r.bag| - i
  {
    if i == |r.bag| then Ok(a)
    else
      var one :- Resolve(r, Id(r.bag[i]), i, a.used, a.pool);
      ResolveBag(r, i + 1, Add(a, one))
  }

  datatype Allocation = Allocation(ids: seq<int>, primary: int, source: Source, pool: Pool)

  function SourceOf(a: Assignment): Source {
    if a.autos > 0 && a.specs > 0 then Mixed else if a.autos > 0 then Auto else Spec
  }

  function First(ids: seq<int>): int { if |ids| > 0 then ids[0] else 0 }

  /** The ids assigned to a rule, given every id in use. */
  function Allocate(r: Rule, used: set<int>, pool: Pool): Result<Allocation, Stop> {
    var free := used - Held(r);
    if IsSingle(r) then
      var one :- Resolve(r, Id(r.meta), 0, free, pool);
      Ok(Allocation([one.id], one.id, one.source, one.pool))
    else if |r.bag| == 0 then Ok(Allocation([], 0, NoSource, pool))
    else
      var a :- ResolveBag(r, 0, Assignment([], 0, 0, free, pool));
      Ok(Allocation(a.ids, First(a.ids), SourceOf(a), a.pool))
  }

  // ----- what an assignment can touch

  /** Ids that other rules claim. */
  ghost predicate Foreign(others: set<int>, r: Rule) {
    others !! Claims(r) && forall x :: x in others ==> x > 0
  }

  lemma ForeignKept(others: set<int>, r: Rule, used: set<int>)
    requires Foreign(others, r) && others <= used
    ensures others <= used - Held(r)
  {
  }

  /** A resolved id is not one of the others', and they stay in use. */
  lemma ResolveAvoids(r: Rule, metaId: int, index: nat, used: set<int>, pool: Pool, others: set<int>)
    requires Foreign(others, r) && others <= used && (metaId > 0 ==> metaId in SpecClaims(r))
    ensures var one := Resolve(r, metaId, index, used, pool);
            one.Ok? ==> one.value.id !in others && others <= one.value.used
  {
    if Pick(pool, used).Some? {
      FreeInLeast(Start(pool), Max(pool), used);
      FreeInLeast(Min(pool), Start(pool) - 1, used);
    }
    if metaId <= 0 && index < |r.granted| && r.granted[index] > 0 {
      assert r.granted[index] in Held(r);
    }
  }

  lemma BagClaims(r: Rule, i: nat)
    requires i < |r.bag| && Id(r.bag[i]) > 0
    ensures Id(r.bag[i]) in SpecClaims(r)
  {
  }

  lemma {:induction false} BagAvoids(r: Rule, i: nat, a: Assignment, others: set<int>)
    requires i <= |r.bag| && Foreign(others, r) && others <= a.used && forall x :: x in a.ids ==> x !in others
    ensures var b := ResolveBag(r, i, a); b.Ok? ==> forall x :: x in b.value.ids ==> x !in others
    decreases |r.bag| - i
  {
    hide Foreign, Resolve, SpecClaims;
    if i < |r.bag| {
      if Id(r.bag[i]) > 0 { BagClaims(r, i); }
      ResolveAvoids(r, Id(r.bag[i]), i, a.used, a.pool, others);
      var one := Resolve(r, Id(r.bag[i]), i, a.used, a.pool);
      if one.Ok? { BagAvoids(r, i + 1, Add(a, one.value), others); }
    }
  }

  /** No id assigned to a rule is claimed by another. */
  lemma AllocateAvoids(r: Rule, used: set<int>, pool: Pool, others: set<int>)
    requires Foreign(others, r) && others <= used
    ensures var a := Allocate(r, used, pool);
            a.Ok? ==> (forall x :: x in a.value.ids ==> x !in others) && (a.value.primary != 0 ==> a.value.primary in a.value.ids)
  {
    ForeignKept(others, r, used);
    MetaClaims(r);
    hide Foreign, Resolve, ResolveBag, Held, SpecClaims;
    ResolveAvoids(r, Id(r.meta), 0, used - Held(r), pool, others);
    BagAvoids(r, 0, Assignment([], 0, 0, used - Held(r), pool), others);
  }

  lemma MetaClaims(r: Rule)
    ensures Id(r.meta) > 0 ==> Id(r.meta) in SpecClaims(r)
  {
  }

  // ----- primary id and source

  /** How many of the first `n` entries have an id in their spec. */
  function SpecCount(bag: seq<Option<int>>, n: nat): (k: nat)
    requires n <= |bag|
    ensures k <= n
    ensures k == n <==> forall i :: 0 <= i < n ==> Id(bag[i]) > 0
    ensures k == 0 <==> forall i :: 0 <= i < n ==> Id(bag[i]) <= 0
  {
    if n == 0 then 0 else SpecCount(bag, n - 1) + if Id(bag[n - 1]) > 0 then 1 else 0
  }

  lemma ResolveSource(r: Rule, metaId: int, index: nat, used: set<int>, pool: Pool)
    requires Resolve(r, metaId, index, used, pool).Ok?
    ensures var one := Resolve(r, metaId, index, used, pool).value;
            (one.source == Spec <==> metaId > 0) && (one.source == Auto <==> metaId <= 0) && (metaId > 0 ==> one.id == metaId)
  {
    hide Pick, Advance;
  }

  lemma {:induction false} BagCounts(r: Rule, i: nat, a: Assignment)
    requires i <= |r.bag| && ResolveBag(r, i, a).Ok? && |a.ids| == i
    requires a.specs == SpecCount(r.bag, i) && a.autos == i - a.specs
    ensures var b := ResolveBag(r, i, a).value;
            |b.ids| == |r.bag| && b.specs == SpecCount(r.bag, |r.bag|) && b.autos == |r.bag| - b.specs
    decreases |r.bag| - i
  {
    hide Resolve;
    if i < |r.bag| {
      ResolveSource(r, Id(r.bag[i]), i, a.used, a.pool);
      BagCounts(r, i + 1, Add(a, Resolve(r, Id(r.bag[i]), i, a.used, a.pool).value));
    }
  }

  /** The primary id is the first, and the source says where the ids come from: the spec if every
      entry has one there, the controller if none has, both otherwise. */
  lemma {:induction false} PrimaryAndSource(r: Rule, used: set<int>, pool: Pool)
    requires Allocate(r, used, pool).Ok?
    ensures var a, single := Allocate(r, used, pool).value, r.meta.Some? || r.hasMatch || (r.hasActions && r.bag == []);
            && a.primary == (if a.ids == [] then 0 else a.ids[0])
            && (single ==> |a.ids| == 1 && a.source == if Id(r.meta) > 0 then Spec else Auto)
            && (!single ==>
                  && |a.ids| == |r.bag|
                  && (a.source == NoSource <==> r.bag == [])
                  && (a.source == Spec <==> r.bag != [] && forall i :: 0 <= i < |r.bag| ==> Id(r.bag[i]) > 0)
                  && (a.source == Auto <==> r.bag != [] && forall i :: 0 <= i < |r.bag| ==> Id(r.bag[i]) <= 0)
                  && (a.source == Mixed <==> (exists i :: 0 <= i < |r.bag| && Id(r.bag[i]) > 0) &&
                                             exists i :: 0 <= i < |r.bag| && Id(r.bag[i]) <= 0))
  {
    hide Resolve, ResolveBag, Held, SpecCount;
    var free := used - Held(r);
    if IsSingle(r) {
      ResolveSource(r, Id(r.meta), 0, free, pool);
    } else if |r.bag| > 0 {
      NoneCounted(r.bag);
      BagCounts(r, 0, Assignment([], 0, 0, free, pool));
    }
  }

  lemma NoneCounted(bag: seq<Option<int>>)
    ensures SpecCount(bag, 0) == 0
  {
  }

  /** An id is in use exactly when some rule has it in its metadata, in an entry of its bag, in its status or in
      its annotation, and it is positive. */
  lemma ClaimsAre(rules: seq<Rule>, x: int)
    ensures x in AllClaims(rules) <==>
            x > 0 && exists i :: 0 <= i < |rules| && var r := rules[i];
              r.meta == Some(x) || Some(x) in r.bag || x in r.granted || r.ruleId == x || r.annotation == Some(x)
  {
    forall i | 0 <= i < |rules|
      ensures x in Claims(rules[i]) <==>
              x > 0 && var r := rules[i];
              (r.meta == Some(x) || Some(x) in r.bag || x in r.granted || r.ruleId == x || r.annotation == Some(x))
    {
      ClaimIs(rules[i], x);
    }
  }

  lemma ClaimIs(r: Rule, x: int)
    ensures x in Claims(r) <==>
            x > 0 && (r.meta == Some(x) || Some(x) in r.bag || x in r.granted || r.ruleId == x || r.annotation == Some(x))
  {
    assert x in Held(r) && x > 0 <==> x > 0 && (x in r.granted || r.ruleId == x || r.annotation == Some(x));
    if x > 0 && Some(x) in r.bag {
      var i :| 0 <= i < |r.bag| && r.bag[i] == Some(x);
      assert Id(r.bag[i]) in BagIds(r);
    }
  }
}
