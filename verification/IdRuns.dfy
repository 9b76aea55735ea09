/** Whole runs of user edits, deletions and reconciles: ids claimed by different SecRules stay
    disjoint. */
module IdRuns {
  import opened Text
  import opened IdPool
  import opened IdClaims

  type Key = nat  // a SecRule's namespace and name

  datatype Cluster = Cluster(rules: map<Key, Rule>, pool: Pool)

  /** How far a reconcile gets before it is cut short. */
  datatype Progress = Nothing | Labels | Status

  datatype Event =
    | Edit(key: Key, rule: Rule)          // a user creates a SecRule or changes its spec and annotation
    | Delete(key: Key)
    | Reconcile(key: Key, upTo: Progress)

  function ClaimedBy(rules: map<Key, Rule>, keys: set<Key>): set<int> {
    set k, x | k in rules && k in keys && x in Claims(rules[k]) :: x
  }

  function Claimed(rules: map<Key, Rule>): set<int> { ClaimedBy(rules, rules.Keys) }

  function Others(rules: map<Key, Rule>, key: Key): set<int> { ClaimedBy(rules, rules.Keys - {key}) }

  /** A user writes spec and annotation; the status is the controller's. */
  function Edited(rules: map<Key, Rule>, key: Key, rule: Rule): Rule {
    if key in rules then rule.(granted := rules[key].granted, ruleId := rules[key].ruleId)
    else rule.(granted := [], ruleId := 0)
  }

  /** The sticky annotation, written for automatic ids only. */
  function Annotated(r: Rule, a: Allocation): Rule {
    if (a.source == Auto || a.source == Mixed) && a.primary > 0 then r.(annotation := Some(a.primary)) else r
  }

  function Reconciled(r: Rule, a: Allocation, upTo: Progress): Rule {
    match upTo
    case Nothing => r
    case Labels => Annotated(r, a)
    case Status => Annotated(r, a).(granted := a.ids, ruleId := a.primary)
  }

  function Step(c: Cluster, e: Event): Cluster {
    match e
    case Edit(k, rule) => c.(rules := c.rules[k := Edited(c.rules, k, rule)])
    case Delete(k) => c.(rules := c.rules - {k})
    case Reconcile(k, upTo) =>
      if k !in c.rules then c
      else
        match Allocate(c.rules[k], Claimed(c.rules), c.pool)
        case Err(stop) => c.(pool := stop.pool)
        case Ok(a) => Cluster(c.rules[k := Reconciled(c.rules[k], a, upTo)], a.pool)
  }

  /** No user edit claims an id that another SecRule already claims. */
  ghost predicate Courteous(c: Cluster, e: Event) {
    e.Edit? ==> Claims(Edited(c.rules, e.key, e.rule)) !! Others(c.rules, e.key)
  }

  function Run(c: Cluster, events: seq<Event>): Cluster
    decreases |events|
  {
    if |events| == 0 then c else Run(Step(c, events[0]), events[1..])
  }

  ghost predicate CourteousRun(c: Cluster, events: seq<Event>)
    decreases |events|
  {
    |events| > 0 ==> Courteous(c, events[0]) && CourteousRun(Step(c, events[0]), events[1..])
  }

  ghost predicate Disjoint(rules: map<Key, Rule>) {
    forall j, k :: j in rules && k in rules && j != k ==> Claims(rules[j]) !! Claims(rules[k])
  }

  lemma OthersForeign(rules: map<Key, Rule>, key: Key)
    requires Disjoint(rules) && key in rules
    ensures Foreign(Others(rules, key), rules[key]) && Others(rules, key) <= Claimed(rules)
  {
    hide Held, SpecClaims;
    forall x | x in Others(rules, key) ensures x !in Claims(rules[key]) && x > 0 {
      var k :| k in rules && k != key && x in Claims(rules[k]);
      ClaimsPositive(rules[k], x);
    }
  }

  lemma ClaimsPositive(r: Rule, x: int)
    requires x in Claims(r)
    ensures x > 0
  {
  }

  /** Replacing one rule by one that claims nothing of the others keeps the claims disjoint. */
  lemma Replace(rules: map<Key, Rule>, key: Key, r: Rule)
    requires Disjoint(rules) && Claims(r) !! Others(rules, key)
    ensures Disjoint(rules[key := r])
  {
    hide Claims;
    var after := rules[key := r];
    forall j, k | j in after && k in after && j != k ensures Claims(after[j]) !! Claims(after[k]) {
      forall x | x in Claims(after[j]) ensures x !in Claims(after[k]) {
        assert k == key ==> x in Others(rules, key);
        assert j == key && x in Claims(after[k]) ==> x in Others(rules, key);
      }
    }
  }

  /** After a reconcile a rule claims only what it claimed before and the ids it was assigned. */
  lemma ReconciledClaims(r: Rule, a: Allocation, upTo: Progress, x: int)
    requires x in Claims(Reconciled(r, a, upTo))
    requires a.primary != 0 ==> a.primary in a.ids
    ensures x in Claims(r) || x in a.ids
  {
  }

  lemma ReconcileKeeps(c: Cluster, key: Key, upTo: Progress)
    requires Disjoint(c.rules)
    ensures Disjoint(Step(c, Reconcile(key, upTo)).rules)
  {
    if key in c.rules && Allocate(c.rules[key], Claimed(c.rules), c.pool).Ok? {
      var r, others := c.rules[key], Others(c.rules, key);
      var a := Allocate(r, Claimed(c.rules), c.pool).value;
      OthersForeign(c.rules, key);
      AllocateAvoids(r, Claimed(c.rules), c.pool, others);
      hide Allocate, Claims, Others, Claimed, Disjoint, Reconciled;
      forall x | x in Claims(Reconciled(r, a, upTo)) ensures x !in others {
        ReconciledClaims(r, a, upTo, x);
      }
      Replace(c.rules, key, Reconciled(r, a, upTo));
    }
  }

  lemma StepKeeps(c: Cluster, e: Event)
    requires Disjoint(c.rules) && Courteous(c, e)
    ensures Disjoint(Step(c, e).rules)
  {
    hide Claims, Allocate;
    match e {
      case Edit(k, rule) => Replace(c.rules, k, Edited(c.rules, k, rule));
      case Delete(_) =>
      case Reconcile(k, upTo) => ReconcileKeeps(c, k, upTo);
    }
  }

  /** Through every run of edits, deletions and reconciles, complete or cut short, the ids claimed
      by different SecRules (spec, status or annotation) stay disjoint. */
  lemma {:induction false} ClaimsStayDisjoint(c: Cluster, events: seq<Event>)
    requires Disjoint(c.rules) && CourteousRun(c, events)
    ensures Disjoint(Run(c, events).rules)
    decreases |events|
  {
    hide Disjoint, Courteous, Step;
    if |events| > 0 {
      StepKeeps(c, events[0]);
      ClaimsStayDisjoint(Step(c, events[0]), events[1..]);
    }
  }

  // ----- ids stay

  lemma PickedPositive(r: Rule, metaId: int, index: nat, used: set<int>, pool: Pool)
    requires Resolve(r, metaId, index, used, pool).Ok?
    ensures Resolve(r, metaId, index, used, pool).value.id > 0
  {
    if Pick(pool, used).Some? {
      FreeInLeast(Start(pool), Max(pool), used);
      FreeInLeast(Min(pool), Start(pool) - 1, used);
    }
  }

  /** An entry that is granted what it has in its spec, or has nothing there, gets that again. */
  lemma ResolveAgain(r: Rule, metaId: int, index: nat, id: int, used: set<int>, pool: Pool)
    requires index < |r.granted| && r.granted[index] == id > 0 && (metaId > 0 ==> metaId == id)
    ensures Resolve(r, metaId, index, used, pool).Ok?
    ensures Resolve(r, metaId, index, used, pool).value.id == id && Resolve(r, metaId, index, used, pool).value.pool == pool
  {
    hide Pick, Advance;
  }

  /** The ids are positive, and those of the spec where it has some. */
  ghost predicate Fits(bag: seq<Option<int>>, ids: seq<int>) {
    |ids| <= |bag| && forall k :: 0 <= k < |ids| ==> ids[k] > 0 && (Id(bag[k]) > 0 ==> ids[k] == Id(bag[k]))
  }

  lemma {:induction false} BagFits(r: Rule, i: nat, a: Assignment)
    requires i <= |r.bag| && |a.ids| == i && Fits(r.bag, a.ids) && ResolveBag(r, i, a).Ok?
    ensures |ResolveBag(r, i, a).value.ids| == |r.bag| && Fits(r.bag, ResolveBag(r, i, a).value.ids)
    decreases |r.bag| - i
  {
    hide Resolve;
    if i < |r.bag| {
      PickedPositive(r, Id(r.bag[i]), i, a.used, a.pool);
      ResolveSource(r, Id(r.bag[i]), i, a.used, a.pool);
      BagFits(r, i + 1, Add(a, Resolve(r, Id(r.bag[i]), i, a.used, a.pool).value));
    }
  }

  lemma {:induction false} BagAgain(r: Rule, i: nat, a: Assignment)
    requires i <= |r.bag| && |r.granted| == |r.bag| && Fits(r.bag, r.granted) && a.ids == r.granted[..i]
    ensures ResolveBag(r, i, a).Ok?
    ensures ResolveBag(r, i, a).value.ids == r.granted && ResolveBag(r, i, a).value.pool == a.pool
    decreases |r.bag| - i
  {
    hide Resolve;
    if i < |r.bag| {
      ResolveAgain(r, Id(r.bag[i]), i, r.granted[i], a.used, a.pool);
      assert r.granted[..i] + [r.granted[i]] == r.granted[..i + 1];
      BagAgain(r, i + 1, Add(a, Resolve(r, Id(r.bag[i]), i, a.used, a.pool).value));
    } else {
      assert r.granted[..i] == r.granted;
    }
  }

  /** Once its status is written, a SecRule keeps its ids: reconciling it again, whatever has happened to the
      pool and to the ids of others, gives the same ids and takes none from the pool. */
  lemma {:induction false} IdsStay(r: Rule, used: set<int>, pool: Pool, later: set<int>, pool': Pool)
    requires Allocate(r, used, pool).Ok?
    ensures var a := Allocate(r, used, pool).value;
            var again := Allocate(Reconciled(r, a, Status), later, pool');
            again.Ok? && again.value.ids == a.ids && again.value.primary == a.primary && again.value.pool == pool'
  {
    hide Resolve, ResolveBag, Held;
    var a := Allocate(r, used, pool).value;
    var s := Reconciled(r, a, Status);
    assert IsSingle(s) == IsSingle(r) && s.bag == r.bag && s.meta == r.meta && s.granted == a.ids;
    if IsSingle(r) {
      PickedPositive(r, Id(r.meta), 0, used - Held(r), pool);
      ResolveSource(r, Id(r.meta), 0, used - Held(r), pool);
      ResolveAgain(s, Id(r.meta), 0, a.ids[0], later - Held(s), pool');
    } else if |r.bag| > 0 {
      BagFits(r, 0, Assignment([], 0, 0, used - Held(r), pool));
      BagAgain(s, 0, Assignment([], 0, 0, later - Held(s), pool'));
    }
  }

  /** The annotation is the primary id if the controller gave one of the ids, and else stays as it was. */
  lemma AnnotationIs(r: Rule, used: set<int>, pool: Pool)
    requires Allocate(r, used, pool).Ok?
    ensures var a := Allocate(r, used, pool).value;
            var s := Reconciled(r, a, Labels);
            && s.granted == r.granted && s.ruleId == r.ruleId
            && s.annotation == if (a.source == Auto || a.source == Mixed) && a.ids != [] then Some(a.ids[0]) else r.annotation
  {
    hide Allocate;
    PrimaryAndSource(r, used, pool);
    AllPositive(r, used, pool);
  }

  lemma AllPositive(r: Rule, used: set<int>, pool: Pool)
    requires Allocate(r, used, pool).Ok?
    ensures var ids := Allocate(r, used, pool).value.ids; forall k :: 0 <= k < |ids| ==> ids[k] > 0
  {
    hide Resolve, ResolveBag, Held, IsSingle;
    if IsSingle(r) {
      PickedPositive(r, Id(r.meta), 0, used - Held(r), pool);
    } else if |r.bag| > 0 {
      BagFits(r, 0, Assignment([], 0, 0, used - Held(r), pool));
    }
  }
}
