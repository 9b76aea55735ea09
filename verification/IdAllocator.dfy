/** The id assignment as it runs: a set of used ids changed in place across calls, and the
    pool object advanced for each got id. */
module IdAllocator {
  import opened Text
  import opened IdPool
  import opened IdClaims

  /** Nobody else writes the pool: the controller is the only writer. */
  function Alone(): seq<Interference> { seq(MAX_ATTEMPTS, _ => Quiet) }

  lemma AloneAttempt(p: Pool, used: set<int>)
    ensures Attempts(p, used, Alone(), 0) ==
            if Max(p) < Min(p) then Outcome(Err(BadBounds), p)
            else if Pick(p, used).None? then Outcome(Err(Exhausted), p)
            else Outcome(Ok(Pick(p, used).value), Advance(p, Pick(p, used).value))
  {
    hide Pick, Advance;
  }

  class Allocator {
    var used: set<int>
    var store: PoolStore

    constructor (s: PoolStore)
      ensures used == {} && store == s
    {
      used := {};
      store := s;
    }

    method AddPositive(list: seq<int>)
      modifies this`used
      ensures used == old(used) + Positive(set x | x in list)
    {
      for i := 0 to |list|
        invariant used == old(used) + Positive(set x | x in list[..i])
      {
        assert list[..i + 1] == list[..i] + [list[i]];
        if list[i] > 0 {
          used := used + {list[i]};
        }
      }
      assert list[..|list|] == list;
    }

    /** The claims of one SecRule: status, primary id, spec and annotation. */
    method AddRule(r: Rule)
      modifies this`used
      ensures used == old(used) + Claims(r)
    {
      AddPositive(r.granted);
      AddPositive([r.ruleId, Id(r.meta)]);
      var bag := seq(|r.bag|, i requires 0 <= i < |r.bag| => Id(r.bag[i]));
      AddPositive(bag);
      AddPositive([Id(r.annotation)]);
      ClaimsUnion(r, bag);
    }

    /** `collectUsedIDs` over the listed SecRules. */
    method CollectUsedIDs(rules: seq<Rule>)
      modifies this`used
      ensures used == AllClaims(rules)
    {
      used := {};
      for i := 0 to |rules|
        invariant used == AllClaims(rules[..i])
      {
        AddRule(rules[i]);
        AllClaimsStep(rules, i);
      }
      assert rules[..|rules|] == rules;
    }

    method FreeSelfClaims(r: Rule)
      modifies this`used
      ensures used == old(used) - Held(r)
    {
      for i := 0 to |r.granted|
        invariant used == old(used) - set x | x in r.granted[..i]
      {
        assert r.granted[..i + 1] == r.granted[..i] + [r.granted[i]];
        used := used - {r.granted[i]};
      }
      assert r.granted[..|r.granted|] == r.granted;
      if r.ruleId > 0 {
        used := used - {r.ruleId};
      }
      if r.annotation.Some? {
        used := used - {r.annotation.value};
      }
    }

    method ResolveOneID(r: Rule, metaId: int, index: nat) returns (id: Result<(int, Source), Failure>)
      modifies this`used, store
      ensures var want := Resolve(r, metaId, index, old(used), old(store.pool));
              match id
              case Ok((n, src)) => want == Ok(One(n, src, used, store.pool))
              case Err(why) => want == Err(Stop(why, store.pool))
    {
      hide Pick, Advance;
      if metaId > 0 {
        used := used + {metaId};
        return Ok((metaId, Spec));
      }
      if index < |r.granted| && r.granted[index] > 0 {
        used := used + {r.granted[index]};
        return Ok((r.granted[index], Auto));
      }
      if index == 0 && r.annotation.Some? && r.annotation.value > 0 {
        used := used + {r.annotation.value};
        return Ok((r.annotation.value, Auto));
      }
      AloneAttempt(store.pool, used);
      var got := store.AllocateOne(used, Alone());
      if got.Err? {
        return Err(got.error);
      }
      used := used + {got.value};
      return Ok((got.value, Auto));
    }

    /** Assigns every id of the rule: one for the single-rule form, one per bag entry otherwise. */
    method AllocateIDs(r: Rule) returns (ids: seq<int>, primary: int, source: Source, err: Option<Failure>)
      modifies this`used, store
      ensures var want := Allocate(r, old(used), old(store.pool));
              match err
              case None => want == Ok(Allocation(ids, primary, source, store.pool))
              case Some(why) => want == Err(Stop(why, store.pool))
    {
      hide Resolve, Held;
      ids, primary, source, err := [], 0, NoSource, None;
      FreeSelfClaims(r);
      if IsSingle(r) {
        var one := ResolveOneID(r, Id(r.meta), 0);
        if one.Err? {
          err := Some(one.error);
          return;
        }
        ids, primary, source := [one.value.0], one.value.0, one.value.1;
        return;
      }
      if |r.bag| == 0 {
        return;
      }
      var autos, specs := 0, 0;
      ghost var start := Assignment([], 0, 0, used, store.pool);
      for i := 0 to |r.bag|
        invariant |ids| == i && autos >= 0 && specs >= 0
        invariant ResolveBag(r, 0, start) == ResolveBag(r, i, Assignment(ids, autos, specs, used, store.pool))
      {
        var one := ResolveOneID(r, Id(r.bag[i]), i);
        if one.Err? {
          err := Some(one.error);
          return;
        }
        ids := ids + [one.value.0];
        if one.value.1 == Spec {
          specs := specs + 1;
        } else {
          autos := autos + 1;
        }
      }
      primary := ids[0];
      source := if autos > 0 && specs > 0 then Mixed else if autos > 0 then Auto else Spec;
    }
  }

  lemma ClaimsUnion(r: Rule, bag: seq<int>)
    requires |bag| == |r.bag| && forall i :: 0 <= i < |bag| ==> bag[i] == Id(r.bag[i])
    ensures Positive(set x | x in r.granted) + Positive(set x | x in [r.ruleId, Id(r.meta)]) +
            Positive(set x | x in bag) + Positive(set x | x in [Id(r.annotation)]) == Claims(r)
  {
    assert (set x | x in bag) == BagIds(r);
  }

  lemma AllClaimsStep(rules: seq<Rule>, i: nat)
    requires i < |rules|
    ensures AllClaims(rules[..i + 1]) == AllClaims(rules[..i]) + Claims(rules[i])
  {
    hide Claims;
    forall x ensures x in AllClaims(rules[..i + 1]) <==> x in AllClaims(rules[..i]) + Claims(rules[i]) {
      if x in Claims(rules[i]) { assert rules[..i + 1][i] == rules[i]; }
      if k :| 0 <= k < i && x in Claims(rules[..i][k]) { assert rules[..i + 1][k] == rules[..i][k]; }
    }
  }
}
