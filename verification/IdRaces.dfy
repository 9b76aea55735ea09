/** Racing allocators: every interleaving of reads and compare-and-swap writes of the pool,
    each allocator working from a used-set that may be stale. */
module IdRaces {
  import opened Text
  import opened IdPool

  /** An allocator between attempts, or holding the pool it read. */
  datatype Worker = Idle | Holding(used: set<int>, seen: Pool)

  /** A grant as it was made: the id, where its search started, what the allocator thought used. */
  datatype Grant = Grant(id: int, start: int, used: set<int>)

  datatype State = State(pool: Pool, workers: map<nat, Worker>, grants: seq<Grant>)

  datatype Action =
    | Begin(w: nat, used: set<int>)  // read the pool for a new allocation
    | Commit(w: nat)                 // try the update; on a conflict read again
    | GiveUp(w: nat)                 // too many conflicts, or another error
    | Initialise                     // the pool's creator writes the first cursor

  function Step(s: State, a: Action): State {
    match a
    case Begin(w, used) => s.(workers := s.workers[w := Holding(used, s.pool)])
    case GiveUp(w) => s.(workers := s.workers[w := Idle])
    case Initialise => if s.pool.next == 0 then s.(pool := s.pool.(next := Min(s.pool), version := s.pool.version + 1)) else s
    case Commit(w) =>
      if w !in s.workers || s.workers[w].Idle? then s
      else
        var Holding(used, seen) := s.workers[w];
        if Pick(seen, used).None? then s.(workers := s.workers[w := Idle])
        else if seen.version != s.pool.version then s.(workers := s.workers[w := Holding(used, s.pool)])
        else
          var id := Pick(seen, used).value;
          State(Advance(seen, id), s.workers[w := Idle], s.grants + [Grant(id, Start(seen), used)])
  }

  function Run(s: State, actions: seq<Action>): State
    decreases |actions|
  {
    if |actions| == 0 then s else Run(Step(s, actions[0]), actions[1..])
  }

  /** The cursor after a grant. */
  function After(id: int, lo: int, hi: int): int { if id + 1 > hi then lo else id + 1 }

  ghost predicate GoodGrant(g: Grant, lo: int, hi: int) {
    lo <= g.id <= hi && g.id !in g.used && lo <= g.start <= hi
  }

  /** Each search starts where the grant before it left the cursor. */
  ghost predicate Chained(gs: seq<Grant>, lo: int, hi: int) {
    forall i :: 0 < i < |gs| ==> gs[i].start == After(gs[i - 1].id, lo, hi)
  }

  ghost predicate Inv(s: State, lo: int, hi: int, base: int) {
    && lo <= hi && Min(s.pool) == lo && Max(s.pool) == hi
    && InRange(s.pool)
    && s.pool.count == base + |s.grants|
    && (forall i :: 0 <= i < |s.grants| ==> GoodGrant(s.grants[i], lo, hi))
    && Chained(s.grants, lo, hi)
    && (|s.grants| > 0 ==> Start(s.pool) == After(s.grants[|s.grants| - 1].id, lo, hi))
    && (forall w :: w in s.workers && s.workers[w].Holding? ==> Snapshot(s.workers[w].seen, s.pool))
  }

  /** A read pool is the current one, or older. */
  ghost predicate Snapshot(seen: Pool, pool: Pool) {
    seen.version < pool.version || seen == pool
  }

  ghost predicate Initial(s: State) {
    Min(s.pool) <= Max(s.pool) && InRange(s.pool) && s.grants == [] && forall w :: w in s.workers ==> s.workers[w].Idle?
  }

  lemma CommitKeeps(s: State, w: nat, lo: int, hi: int, base: int)
    requires Inv(s, lo, hi, base) && w in s.workers && s.workers[w].Holding? && s.workers[w].seen == s.pool
    requires Pick(s.pool, s.workers[w].used).Some?
    ensures Inv(Step(s, Commit(w)), lo, hi, base)
  {
    var used := s.workers[w].used;
    PickExact(s.pool, used);
    var id := Pick(s.pool, used).value;
    var gs, g := s.grants, Grant(id, Start(s.pool), used);
    var t := Step(s, Commit(w));
    hide Pick;
    assert t.grants == gs + [g];
    forall i | 0 < i < |t.grants| ensures t.grants[i].start == After(t.grants[i - 1].id, lo, hi) {
      assert t.grants[i - 1] == gs[i - 1];
      if i < |gs| { assert t.grants[i] == gs[i]; }
    }
  }

  lemma StepKeeps(s: State, a: Action, lo: int, hi: int, base: int)
    requires Inv(s, lo, hi, base)
    ensures Inv(Step(s, a), lo, hi, base)
  {
    if a.Commit? && a.w in s.workers && s.workers[a.w].Holding? && s.workers[a.w].seen.version == s.pool.version
       && Pick(s.workers[a.w].seen, s.workers[a.w].used).Some? {
      CommitKeeps(s, a.w, lo, hi, base);
    } else {
      OtherKeeps(s, a, lo, hi, base);
    }
  }

  lemma OtherKeeps(s: State, a: Action, lo: int, hi: int, base: int)
    requires Inv(s, lo, hi, base)
    requires Step(s, a).grants == s.grants
    ensures Inv(Step(s, a), lo, hi, base)
  {
    hide Pick, Advance, Chained, GoodGrant;
  }

  lemma {:induction false} RunKeeps(s: State, actions: seq<Action>, lo: int, hi: int, base: int)
    requires Inv(s, lo, hi, base)
    ensures Inv(Run(s, actions), lo, hi, base)
    decreases |actions|
  {
    if |actions| > 0 {
      StepKeeps(s, actions[0], lo, hi, base);
      hide Step, Inv;
      RunKeeps(Step(s, actions[0]), actions[1..], lo, hi, base);
    }
  }

  /** A grant wraps when its search went past the maximum, or when it took the maximum. */
  ghost predicate NoWrap(gs: seq<Grant>, i: nat, j: nat, hi: int)
    requires i <= j < |gs|
  {
    && (forall k :: i < k <= j ==> gs[k].start <= gs[k].id)
    && (forall k :: i <= k < j ==> gs[k].id < hi)
  }

  lemma {:induction false} Increasing(gs: seq<Grant>, i: nat, j: nat, lo: int, hi: int)
    requires i < j < |gs| && Chained(gs, lo, hi) && NoWrap(gs, i, j, hi)
    ensures gs[i].id < gs[j].id
    decreases j - i
  {
    assert gs[j].start == After(gs[j - 1].id, lo, hi);
    if i < j - 1 { Increasing(gs, i, j - 1, lo, hi); }
  }

  /** Over every interleaving, with the bounds fixed: granted ids lie in range and were free for
      their allocator, they strictly increase between wraps of the cursor, so two grants with no
      wrap between them differ, and the counter counts the grants. */
  lemma GrantsOfEveryRun(s: State, actions: seq<Action>)
    requires Initial(s)
    ensures var t := Run(s, actions); var lo, hi := Min(s.pool), Max(s.pool);
            && t.pool.count == s.pool.count + |t.grants|
            && InRange(t.pool) && Min(t.pool) == lo && Max(t.pool) == hi
            && (forall i :: 0 <= i < |t.grants| ==> lo <= t.grants[i].id <= hi && t.grants[i].id !in t.grants[i].used)
            && (forall i, j :: 0 <= i < j < |t.grants| && NoWrap(t.grants, i, j, hi) ==> t.grants[i].id < t.grants[j].id)
  {
    var lo, hi := Min(s.pool), Max(s.pool);
    RunKeeps(s, actions, lo, hi, s.pool.count);
    var t := Run(s, actions);
    hide Run;
    forall i, j | 0 <= i < j < |t.grants| && NoWrap(t.grants, i, j, hi) ensures t.grants[i].id < t.grants[j].id {
      Increasing(t.grants, i, j, lo, hi);
    }
  }

  /** After a wrap an id can be granted again: the counter-example a caller must expect. */
  lemma WrapCanRepeat()
    ensures exists s, actions :: Initial(s) && |Run(s, actions).grants| == 2 && Run(s, actions).grants[0].id == Run(s, actions).grants[1].id
  {
    var s := State(Pool(7, 7, 0, 0, 0, 0), map[], []);
    var actions := [Begin(0, {}), Commit(0), Begin(0, {}), Commit(0)];
    var p := s.pool;
    FreeInLeast(7, 7, {});
    var s1 := Step(s, Begin(0, {}));
    var s2 := Step(s1, Commit(0));
    var s3 := Step(s2, Begin(0, {}));
    var s4 := Step(s3, Commit(0));
    assert s2.grants == [Grant(7, 7, {})];
    assert s4.grants == [Grant(7, 7, {}), Grant(7, 7, {})];
    hide Step, Pick;
    assert Run(s, actions) == Run(s1, actions[1..]);
    assert actions[1..][1..] == actions[2..] && Run(s1, actions[1..]) == Run(s2, actions[2..]);
    assert actions[2..][1..] == actions[3..] && Run(s2, actions[2..]) == Run(s3, actions[3..]);
    assert actions[3..][1..] == [] && Run(s3, actions[3..]) == Run(s4, []);
  }
}
