/** The cluster-wide rule-id pool: its cursor, the search for a free id, and the
    optimistic update with retries. */
module IdPool {
  import opened Text

  const DEFAULT_MIN := 100000
  const DEFAULT_MAX := 999999
  const MAX_ATTEMPTS := 32

  /** The pool object: bounds from its spec, cursor and counter from its status, and the
      version the API server compares on update. */
  datatype Pool = Pool(minId: int, maxId: int, next: int, last: int, count: int, version: nat)

  datatype Failure = Exhausted | BadBounds | TooManyConflicts

  function Min(p: Pool): (r: int)
    ensures r > 0
  {
    if p.minId <= 0 then DEFAULT_MIN else p.minId
  }

  function Max(p: Pool): (r: int)
    ensures r > 0
  {
    if p.maxId <= 0 then DEFAULT_MAX else p.maxId
  }

  /** Where the search starts. */
  function Start(p: Pool): int {
    if p.next < Min(p) then Min(p) else p.next
  }

  // ----- finding a free id

  /** The least id of `lo..hi` that is not used. */
  function FreeIn(lo: int, hi: int, used: set<int>): Option<int>
    decreases hi - lo
  {
    if hi < lo then None
    else if lo !in used then Some(lo)
    else FreeIn(lo + 1, hi, used)
  }

  lemma {:induction false} FreeInLeast(lo: int, hi: int, used: set<int>)
    ensures FreeIn(lo, hi, used).Some? ==>
              var id := FreeIn(lo, hi, used).value;
              lo <= id <= hi && id !in used && forall k :: lo <= k < id ==> k in used
    ensures FreeIn(lo, hi, used).None? ==> forall k :: lo <= k <= hi ==> k in used
    decreases hi - lo
  {
    if lo <= hi && lo in used { FreeInLeast(lo + 1, hi, used); }
  }

  method FindFree(lo: int, hi: int, used: set<int>) returns (r: Option<int>)
    ensures r == FreeIn(lo, hi, used)
  {
    var id := lo;
    while id <= hi
      invariant FreeIn(lo, hi, used) == FreeIn(id, hi, used)
      decreases hi - id
    {
      if id !in used {
        return Some(id);
      }
      id := id + 1;
    }
    return None;
  }

  /** From the cursor to the maximum, then from the minimum to the cursor. */
  function Pick(p: Pool, used: set<int>): Option<int> {
    var ahead := FreeIn(Start(p), Max(p), used);
    if ahead.Some? then ahead else FreeIn(Min(p), Start(p) - 1, used)
  }

  function Advance(p: Pool, id: int): Pool {
    p.(next := if id + 1 > Max(p) then Min(p) else id + 1, last := id, count := p.count + 1, version := p.version + 1)
  }

  /** A cursor that a run with these bounds can leave behind. */
  ghost predicate InRange(p: Pool) { p.next == 0 || Min(p) <= p.next <= Max(p) }

  /** With the cursor in range, a picked id is in range and free, and none is picked exactly
      when every id in range is used. */
  lemma PickExact(p: Pool, used: set<int>)
    requires Min(p) <= Max(p) && InRange(p)
    ensures Pick(p, used).Some? ==> Min(p) <= Pick(p, used).value <= Max(p) && Pick(p, used).value !in used
    ensures Pick(p, used).None? <==> forall k :: Min(p) <= k <= Max(p) ==> k in used
    ensures Pick(p, used).Some? ==> InRange(Advance(p, Pick(p, used).value))
  {
    FreeInLeast(Start(p), Max(p), used);
    FreeInLeast(Min(p), Start(p) - 1, used);
  }

  /** Once the maximum has been lowered below the cursor, the second search runs past it: the
      picked id is in range exactly when the cursor is not past the maximum's successor, or
      some id in range is free. */
  lemma PickAfterShrink(p: Pool, used: set<int>)
    requires Min(p) <= Max(p) && Pick(p, used).Some?
    ensures Min(p) <= Pick(p, used).value <= Max(p) <==>
            (Start(p) <= Max(p) + 1 || exists k :: Min(p) <= k <= Max(p) && k !in used)
  {
    FreeInLeast(Start(p), Max(p), used);
    FreeInLeast(Min(p), Start(p) - 1, used);
  }

  lemma ShrunkPoolGrantsAboveMax()
    ensures var p := Pool(10, 12, 20, 19, 5, 7); Pick(p, {10, 11, 12}) == Some(13) && Max(p) == 12
  {
    var p := Pool(10, 12, 20, 19, 5, 7);
    FreeInLeast(20, 12, {10, 11, 12});
    FreeInLeast(10, 19, {10, 11, 12});
  }

  // ----- one allocation, with retries

  /** What another writer makes of the pool between our read and our write: a new status
      under a new version, or nothing. */
  datatype Interference = Quiet | Moved(next: int, last: int, count: int)

  function Disturb(p: Pool, i: Interference): Pool {
    match i
    case Quiet => p
    case Moved(next, last, count) => p.(next := next, last := last, count := count, version := p.version + 1)
  }

  datatype Outcome = Outcome(result: Result<int, Failure>, pool: Pool)

  /** The attempts from number `n` on, when attempt `k` is disturbed as `others[k]` says. */
  function Attempts(p: Pool, used: set<int>, others: seq<Interference>, n: nat): Outcome
    requires n <= |others|
    decreases |others| - n
  {
    if n == |others| then Outcome(Err(TooManyConflicts), p)
    else if Max(p) < Min(p) then Outcome(Err(BadBounds), p)
    else if Pick(p, used).None? then Outcome(Err(Exhausted), p)
    else if others[n].Moved? then Attempts(Disturb(p, others[n]), used, others, n + 1)
    else Outcome(Ok(Pick(p, used).value), Advance(p, Pick(p, used).value))
  }

  /** The pool after the other writers' moves during attempts `n..k`. */
  function Disturbed(p: Pool, others: seq<Interference>, n: nat, k: nat): Pool
    requires n <= k <= |others|
    decreases k - n
  {
    if n == k then p else Disturbed(Disturb(p, others[n]), others, n + 1, k)
  }

  /** Attempt `k` finds a free id on the pool as it stands then, and another writer is faster. */
  ghost predicate LosesAt(p: Pool, used: set<int>, others: seq<Interference>, n: nat, k: nat)
    requires n <= k < |others|
  {
    var q := Disturbed(p, others, n, k);
    Min(q) <= Max(q) && Pick(q, used).Some? && others[k].Moved?
  }

  /** Every attempt before `k` is lost, and `k` is not. When there are no attempts left, that is the
      failure; otherwise the outcome is one search and one advance of the pool as it stands at
      attempt `k`, or the failure that this pool gives, which leaves it alone. */
  ghost predicate MadeAt(p: Pool, used: set<int>, others: seq<Interference>, n: nat, k: nat, o: Outcome)
    requires n <= k <= |others|
  {
    var q := Disturbed(p, others, n, k);
    && (forall j :: n <= j < k ==> LosesAt(p, used, others, n, j))
    && (k < |others| ==> !LosesAt(p, used, others, n, k))
    && if k == |others| then o == Outcome(Err(TooManyConflicts), q)
       else if Max(q) < Min(q) then o == Outcome(Err(BadBounds), q)
       else if Pick(q, used).None? then o == Outcome(Err(Exhausted), q)
       else o == Outcome(Ok(Pick(q, used).value), Advance(q, Pick(q, used).value))
  }

  /** However often it is disturbed, an allocation is atomic, and it gives up only when every attempt is lost. */
  lemma {:induction false} AttemptsAtomic(p: Pool, used: set<int>, others: seq<Interference>, n: nat)
    requires n <= |others|
    ensures exists k :: n <= k <= |others| && MadeAt(p, used, others, n, k, Attempts(p, used, others, n))
    decreases |others| - n
  {
    hide Pick, Advance;
    if n < |others| && Min(p) <= Max(p) && Pick(p, used).Some? && others[n].Moved? {
      var p', o := Disturb(p, others[n]), Attempts(p, used, others, n);
      AttemptsAtomic(p', used, others, n + 1);
      var k :| n + 1 <= k <= |others| && MadeAt(p', used, others, n + 1, k, o);
      forall j | n < j < |others| ensures LosesAt(p, used, others, n, j) == LosesAt(p', used, others, n + 1, j) {}
      assert LosesAt(p, used, others, n, n);
      assert MadeAt(p, used, others, n, k, o);
    } else {
      assert MadeAt(p, used, others, n, n, Attempts(p, used, others, n));
    }
  }

  /** The API server's copy of the pool. */
  class PoolStore {
    var pool: Pool

    /** The pool that exists, else one with the default bounds. Its first cursor is the lower bound;
        when that status update fails the cursor stays unset and the search starts there all the same. */
    constructor (existing: Option<Pool>, statusFails: bool)
      ensures existing.Some? ==> pool == existing.value
      ensures existing.None? ==>
                && Min(pool) == pool.minId == DEFAULT_MIN && Max(pool) == pool.maxId == DEFAULT_MAX && pool.count == 0
                && pool.next == (if statusFails then 0 else DEFAULT_MIN) && Start(pool) == DEFAULT_MIN
    {
      if existing.Some? {
        pool := existing.value;
      } else {
        pool := Pool(DEFAULT_MIN, DEFAULT_MAX, if statusFails then 0 else DEFAULT_MIN, 0, 0, if statusFails then 0 else 1);
      }
    }

    /** A status update succeeds only on the version it was read at. */
    method UpdateStatus(p: Pool) returns (conflict: bool)
      modifies this
      ensures conflict <==> p.version != old(pool).version
      ensures conflict ==> pool == old(pool)
      ensures !conflict ==> pool == p.(version := old(pool).version + 1, minId := old(pool).minId, maxId := old(pool).maxId)
    {
      conflict := p.version != pool.version;
      if !conflict {
        pool := p.(version := pool.version + 1, minId := pool.minId, maxId := pool.maxId);
      }
    }

    method Write(i: Interference)
      modifies this
      ensures pool == Disturb(old(pool), i)
    {
      pool := Disturb(pool, i);
    }

    /** `others[k]` is what happens to the pool while attempt `k` computes. */
    method AllocateOne(used: set<int>, others: seq<Interference>) returns (r: Result<int, Failure>)
      requires |others| == MAX_ATTEMPTS
      modifies this
      ensures Outcome(r, pool) == Attempts(old(pool), used, others, 0) && |others| == 32
    {
      var attempt := 0;
      while attempt < MAX_ATTEMPTS
        invariant 0 <= attempt <= MAX_ATTEMPTS
        invariant Attempts(old(pool), used, others, 0) == Attempts(pool, used, others, attempt)
      {
        var seen := pool;
        var minId, maxId := Min(seen), Max(seen);
        if maxId < minId {
          return Err(BadBounds);
        }
        var next := seen.next;
        if next < minId {
          next := minId;
        }
        var id := FindFree(next, maxId, used);
        if id.None? {
          id := FindFree(minId, next - 1, used);
        }
        if id.None? {
          return Err(Exhausted);
        }
        seen := seen.(next := if id.value + 1 > maxId then minId else id.value + 1, last := id.value, count := seen.count + 1);
        Write(others[attempt]);
        var conflict := UpdateStatus(seen);
        if !conflict {
          return Ok(id.value);
        }
        attempt := attempt + 1;
      }
      return Err(TooManyConflicts);
    }
  }

  /** The search takes the least free id from the cursor on, and only if there is none the least of all. */
  lemma PickIsNext(p: Pool, used: set<int>)
    requires Min(p) <= p.next <= Max(p) && Pick(p, used).Some?
    ensures var id := Pick(p, used).value;
            && id !in used && Min(p) <= id <= Max(p)
            && (id >= p.next ==> forall k :: p.next <= k < id ==> k in used)
            && (id < p.next ==> (forall k :: p.next <= k <= Max(p) ==> k in used) && forall k :: Min(p) <= k < id ==> k in used)
  {
    FreeInLeast(Start(p), Max(p), used);
    FreeInLeast(Min(p), Start(p) - 1, used);
  }

  /** The cursor moves past the granted id, back to the minimum after the maximum; the bounds stay. */
  lemma AdvanceIs(p: Pool, id: int)
    ensures var q := Advance(p, id);
            && q.minId == p.minId && q.maxId == p.maxId && q.last == id && q.count == p.count + 1 && q.version == p.version + 1
            && (id < Max(p) ==> q.next == id + 1) && (id >= Max(p) ==> q.next == Min(p))
    ensures (p.minId > 0 ==> Min(p) == p.minId) && (p.minId <= 0 ==> Min(p) == 100000)
    ensures (p.maxId > 0 ==> Max(p) == p.maxId) && (p.maxId <= 0 ==> Max(p) == 999999)
  {
  }
}
