/** Leader and replica reconciles of one operator pod: what they build, when they publish it, and
    what the pod serves after any run of them. */
module Rollout {
  import opened Text
  import opened DataFiles
  import opened DataFileResolution
  import opened EcdsStore

  // ----- what a reconcile reads

  /** What else the filters are packed from: it may change between reconciles. */
  datatype Settings = Settings(mode: string, provider: string, challenge: Option<string>)

  /** What the build of a WAF reads, with the failures of the steps that are lookups. */
  datatype Inputs = Inputs(
    resolverFails: bool, refErrors: nat, rulesFail: bool, challengeFails: bool, discoveryFails: bool,
    directives: seq<string>, listRefs: Option<Fault>, sources: Sources, ignore: bool, settings: Settings)

  /** A WAF as the API server answers for it, with the data files resolved when it is built. */
  datatype View = Gone | Unreadable | Deleting | Present(inputs: Inputs, files: Result<Resolved, Fault>)

  /** Packing settings, directives and data files into filters; it may fail. */
  type Packer = (Waf, Settings, seq<string>, map<string, Body>) -> Option<Portable>

  ghost predicate Packs(pack: Packer) {
    forall w, s, d, f :: pack(w, s, d, f).Some? ==> pack(w, s, d, f).value.waf == w
  }

  /** The data files are what their resolution gives. */
  ghost predicate Honest(v: View) {
    v.Present? ==>
      var i := v.inputs;
      && (i.listRefs.Some? ==> v.files == Err(i.listRefs.value))
      && (i.listRefs.None? ==> PublishOutcome(i.sources, i.ignore, i.directives, v.files))
  }

  // ----- building

  datatype Build = NotBuilt(refErrors: nat) | Built(refErrors: nat, portable: Portable)

  function Pack(pack: Packer, w: Waf, i: Inputs, files: Result<Resolved, Fault>): Build {
    if files.Err? then NotBuilt(i.refErrors)
    else
      var p := pack(w, i.settings, files.value.directives, files.value.files);
      if p.None? then NotBuilt(0) else Built(i.refErrors, p.value)
  }

  function BuildOf(pack: Packer, w: Waf, i: Inputs, files: Result<Resolved, Fault>, requireRefs: bool): Build {
    if i.resolverFails then NotBuilt(0)
    else if requireRefs && i.refErrors > 0 then NotBuilt(i.refErrors)
    else if i.rulesFail || i.challengeFails || i.discoveryFails then NotBuilt(0)
    else Pack(pack, w, i, files)
  }

  /** The replica's reconcile, or the leader's with the two points at which it may return early:
      after adding its finalizer and when a status update fails. */
  datatype Event =
    | Sync(waf: Waf, view: View, cached: bool)
    | Lead(waf: Waf, view: View, finalizer: bool, statusFails: bool, cached: bool)

  /** The operation on the store that a reconcile comes to. */
  function Effect(pack: Packer, e: Event): Option<Op> {
    match e.view
    case Unreadable => None
    case Gone => if e.Sync? then Some(Drop(e.waf)) else None
    case Deleting => Some(Drop(e.waf))
    case Present(i, files) =>
      var b := BuildOf(pack, e.waf, i, files, e.Sync?);
      if e.Lead? && (e.finalizer || e.statusFails) then None
      else if b.NotBuilt? || b.refErrors > 0 || !CanPublish(b.portable) then None
      else Some(Put(b.portable))
  }

  // ----- one pod

  datatype Pod = Pod(version: nat, store: Store, served: Snapshot)

  function Publish(p: Pod, store: Store, cached: bool): Pod {
    Pod(p.version + 1, store, if cached then Snapshot(p.version + 1, store) else p.served)
  }

  function Perform(p: Pod, op: Op, cached: bool): Pod {
    var store := Apply(p.store, op);
    if op.Drop? && store == p.store then p else Publish(p, store, cached)
  }

  function Step(pack: Packer, p: Pod, e: Event): Pod {
    match Effect(pack, e)
    case None => p
    case Some(op) => Perform(p, op, e.cached)
  }

  const START := Pod(1, map[], Snapshot(1, map[]))

  function PodAfter(pack: Packer, events: seq<Event>): Pod {
    if events == [] then START else Step(pack, PodAfter(pack, events[..|events| - 1]), events[|events| - 1])
  }

  // ----- the reconciles as they run

  function State(s: Server): Pod
    reads s
  {
    Pod(s.version, s.resources, s.served)
  }

  method BuildWaf(pack: Packer, w: Waf, i: Inputs, requireRefs: bool)
    returns (b: Build, ghost files: Result<Resolved, Fault>)
    ensures b == BuildOf(pack, w, i, files, requireRefs) && Honest(Present(i, files))
    ensures b.Built? ==> b.refErrors == i.refErrors && (requireRefs ==> i.refErrors == 0)
    ensures b.Built? ==> !i.resolverFails && !i.rulesFail && !i.challengeFails && !i.discoveryFails
  {
    hide PublishOutcome;
    var r := DiscoverAndResolve(i.listRefs, i.sources, i.ignore, i.directives);
    files := r;
    if i.resolverFails { return NotBuilt(0), files; }
    if requireRefs && i.refErrors > 0 { return NotBuilt(i.refErrors), files; }
    if i.rulesFail || i.challengeFails || i.discoveryFails { return NotBuilt(0), files; }
    b := Pack(pack, w, i, r);
  }

  method PublishBuild(s: Server, p: Portable, cached: bool)
    modifies s
    ensures State(s) == if CanPublish(p) then Perform(old(State(s)), Put(p), cached) else old(State(s))
  {
    hide Apply;
    var _ := s.Upsert(p, cached);
  }

  method DropLocal(s: Server, w: Waf, cached: bool)
    modifies s
    ensures State(s) == Perform(old(State(s)), Drop(w), cached)
  {
    hide Apply;
    var _ := s.Delete(w, cached);
  }

  /** The answer to reading the WAF, before its data files are resolved. */
  datatype Answer = NotFound | ReadError | BeingDeleted | Live(inputs: Inputs)

  ghost predicate Saw(a: Answer, v: View) {
    match a
    case NotFound => v == Gone
    case ReadError => v == Unreadable
    case BeingDeleted => v == Deleting
    case Live(i) => v.Present? && v.inputs == i && Honest(v)
  }

  // ----- what a reconcile does, said of the fields

  /** What the store holds for the WAF is exactly what was packed. */
  ghost predicate HoldsPacked(store: Store, p: Portable) {
    && Get(store, Ext(p.waf)) == Some(p.engine.config)
    && Get(store, ChallengeExt(p.waf)) == if p.challenge.Some? then Some(p.challenge.value.config) else None
  }

  ghost predicate HoldsNothing(store: Store, w: Waf) { Ext(w) !in store && ChallengeExt(w) !in store }

  /** No step of the build fails and no reference has an error, the leader does not return early,
      and the filters are packed and can be published. */
  ghost predicate Ready(pack: Packer, e: Event, p: Portable) {
    && e.view.Present? && e.view.files.Ok? && e.view.inputs.refErrors == 0
    && !e.view.inputs.resolverFails && !e.view.inputs.rulesFail
    && !e.view.inputs.challengeFails && !e.view.inputs.discoveryFails
    && (e.Lead? ==> !e.finalizer && !e.statusFails)
    && pack(e.waf, e.view.inputs.settings, e.view.files.value.directives, e.view.files.value.files) == Some(p)
    && p.engine.url != "" && Trim(p.engine.sha) != ""
    && (p.challenge.Some? ==> p.challenge.value.url != "" && Trim(p.challenge.value.sha) != "")
  }

  /** The WAF is being deleted, or a replica finds it gone. */
  predicate Drops(e: Event) { e.view.Deleting? || (e.view.Gone? && e.Sync?) }

  /** A ready WAF is stored and, if the cache takes the snapshot, served; a WAF that goes is not stored
      and, if there was something to remove, not served; in every other case nothing changes. */
  ghost predicate Carried(pack: Packer, e: Event, a: Pod, b: Pod) {
    && (forall p :: Ready(pack, e, p) ==>
          && HoldsPacked(b.store, p) && b.version == a.version + 1
          && b.served == if e.cached then Snapshot(b.version, b.store) else a.served)
    && (Drops(e) ==>
          && HoldsNothing(b.store, e.waf)
          && b.served == if e.cached && b.store != a.store then Snapshot(b.version, b.store) else a.served)
    && (!Drops(e) && (forall p :: !Ready(pack, e, p)) ==> b == a)
  }

  lemma ChallengeBelow(w: Waf)
    ensures Under(Ext(w), Ext(w)) && Under(ChallengeExt(w), Ext(w)) && ChallengeExt(w) != Ext(w)
  {
    assert ChallengeExt(w) == (Ext(w) + "/") + "challenge";
    Cut(Ext(w) + "/", "challenge");
    assert |ChallengeExt(w)| > |Ext(w)|;
  }

  lemma PutHolds(s: Store, p: Portable)
    ensures HoldsPacked(Apply(s, Put(p)), p)
  {
    hide Under, Ext, ChallengeExt;
    ChallengeBelow(p.waf);
  }

  lemma DropHolds(s: Store, w: Waf)
    ensures HoldsNothing(Apply(s, Drop(w)), w)
  {
    hide Under, Ext, ChallengeExt;
    ChallengeBelow(w);
  }

  lemma EffectExactly(pack: Packer, e: Event)
    ensures forall p :: Ready(pack, e, p) <==> Effect(pack, e) == Some(Put(p))
    ensures Drops(e) <==> Effect(pack, e) == Some(Drop(e.waf))
    ensures Effect(pack, e).None? || Effect(pack, e) == Some(Drop(e.waf)) || Effect(pack, e).value.Put?
  {
  }

  lemma StepCarries(pack: Packer, a: Pod, e: Event)
    ensures Carried(pack, e, a, Step(pack, a, e))
  {
    hide Effect, Apply, HoldsPacked, HoldsNothing, Ready;
    EffectExactly(pack, e);
    var op := Effect(pack, e);
    if op.Some? {
      if op.value.Put? { PutHolds(a.store, op.value.portable); } else { DropHolds(a.store, e.waf); }
    }
  }

  // ----- the reconciles as they run, publishing

  method ReconcileSync(pack: Packer, s: Server, w: Waf, answer: Answer, cached: bool) returns (ghost view: View)
    modifies s
    ensures Saw(answer, view) && State(s) == Step(pack, old(State(s)), Sync(w, view, cached))
    ensures Carried(pack, Sync(w, view, cached), old(State(s)), State(s))
  {
    hide BuildOf, Perform, Honest, Carried;
    match answer {
      case NotFound =>
        view := Gone;
        DropLocal(s, w, cached);
      case ReadError =>
        view := Unreadable;
      case BeingDeleted =>
        view := Deleting;
        DropLocal(s, w, cached);
      case Live(i) =>
        var b, files := BuildWaf(pack, w, i, true);
        view := Present(i, files);
        if b.Built? && b.refErrors == 0 { PublishBuild(s, b.portable, cached); }
    }
    StepCarries(pack, old(State(s)), Sync(w, view, cached));
  }

  method ReconcileLead(pack: Packer, s: Server, w: Waf, answer: Answer, finalizer: bool, statusFails: bool, cached: bool)
    returns (ghost view: View)
    modifies s
    ensures Saw(answer, view) && State(s) == Step(pack, old(State(s)), Lead(w, view, finalizer, statusFails, cached))
    ensures Carried(pack, Lead(w, view, finalizer, statusFails, cached), old(State(s)), State(s))
  {
    hide BuildOf, Perform, Honest, Carried;
    match answer {
      case NotFound =>
        view := Gone;
      case ReadError =>
        view := Unreadable;
      case BeingDeleted =>
        view := Deleting;
        DropLocal(s, w, cached);
      case Live(i) =>
        var b, files := BuildWaf(pack, w, i, false);
        view := Present(i, files);
        StepCarries(pack, old(State(s)), Lead(w, view, finalizer, statusFails, cached));
        if finalizer { return; }
        if b.NotBuilt? || b.refErrors > 0 || statusFails { return; }
        PublishBuild(s, b.portable, cached);
    }
    StepCarries(pack, old(State(s)), Lead(w, view, finalizer, statusFails, cached));
  }

  // ----- what the pod holds after a run

  /** The operations a run comes to, in order. */
  function Ops(pack: Packer, events: seq<Event>): seq<Op> {
    if events == [] then []
    else
      var n := |events| - 1;
      Ops(pack, events[..n]) + match Effect(pack, events[n]) case None => [] case Some(op) => [op]
  }

  lemma RunSnoc(s: Store, ops: seq<Op>, op: Op)
    ensures Run(s, ops + [op]) == Apply(Run(s, ops), op)
  {
    assert (ops + [op])[..|ops|] == ops;
  }

  lemma {:induction false} OpsStep(pack: Packer, events: seq<Event>)
    requires events != []
    ensures var n := |events| - 1;
            var front, effect := Ops(pack, events[..n]), Effect(pack, events[n]);
            Run(map[], Ops(pack, events)) ==
            if effect.None? then Run(map[], front) else Apply(Run(map[], front), effect.value)
  {
    hide Effect, Apply, Run;
    var n := |events| - 1;
    var front, effect := Ops(pack, events[..n]), Effect(pack, events[n]);
    if effect.None? {
      assert front + [] == front;
    } else {
      RunSnoc(map[], front, effect.value);
    }
  }

  /** The store is the result of the operations. */
  lemma {:induction false} StoreIs(pack: Packer, events: seq<Event>)
    ensures PodAfter(pack, events).store == Run(map[], Ops(pack, events))
  {
    hide Effect, Apply, Ops;
    if events == [] {
      NoOps(pack);
    } else {
      StoreIs(pack, events[..|events| - 1]);
      OpsStep(pack, events);
    }
  }

  lemma NoOps(pack: Packer)
    ensures Ops(pack, []) == [] && Run(map[], []) == map[]
  {
  }

  // ----- what the pod serves after a run

  /** The event makes the pod number a snapshot and hand it to the cache. */
  predicate Publishes(pack: Packer, p: Pod, e: Event) {
    var op := Effect(pack, e);
    op.Some? && (op.value.Put? || Apply(p.store, op.value) != p.store)
  }

  predicate PublishesAt(pack: Packer, events: seq<Event>, i: nat)
    requires i < |events|
  {
    Publishes(pack, PodAfter(pack, events[..i]), events[i])
  }

  /** How much of the run there was when the cache last took a snapshot. */
  function Accepted(pack: Packer, events: seq<Event>): (k: nat)
    ensures k <= |events|
  {
    if events == [] then 0
    else
      var n := |events| - 1;
      if PublishesAt(pack, events, n) && events[n].cached then n + 1 else Accepted(pack, events[..n])
  }

  lemma PublishesAtInit(pack: Packer, events: seq<Event>, n: nat, i: nat)
    requires i < n <= |events|
    ensures PublishesAt(pack, events[..n], i) == PublishesAt(pack, events, i)
  {
    hide Publishes;
    assert events[..n][..i] == events[..i];
  }

  lemma ServedStep(pack: Packer, p: Pod, e: Event)
    ensures var q := Step(pack, p, e);
            q.served == if Publishes(pack, p, e) && e.cached then Snapshot(q.version, q.store) else p.served
  {
    hide Effect, Apply;
  }

  /** What is served is the store as it was then: the cache took that snapshot, and none since. */
  lemma {:induction false} ServedIs(pack: Packer, events: seq<Event>)
    ensures var k := Accepted(pack, events);
            && PodAfter(pack, events).served == Snapshot(PodAfter(pack, events[..k]).version, PodAfter(pack, events[..k]).store)
            && (k > 0 ==> PublishesAt(pack, events, k - 1) && events[k - 1].cached)
            && (forall i :: k <= i < |events| && PublishesAt(pack, events, i) ==> !events[i].cached)
  {
    hide Step, Publishes;
    if events != [] {
      var n, k := |events| - 1, Accepted(pack, events);
      ServedStep(pack, PodAfter(pack, events[..n]), events[n]);
      if PublishesAt(pack, events, n) && events[n].cached {
        assert events[..k] == events;
      } else {
        ServedIs(pack, events[..n]);
        assert events[..n][..k] == events[..k];
        forall i | 0 <= i < n ensures PublishesAt(pack, events[..n], i) == PublishesAt(pack, events, i) {
          PublishesAtInit(pack, events, n, i);
        }
      }
    }
  }

  /** The last snapshot of the run was taken, or there was none. */
  ghost predicate LastAccepted(pack: Packer, events: seq<Event>) {
    forall i :: Accepted(pack, events) <= i < |events| ==> !PublishesAt(pack, events, i)
  }

  lemma Unpublished(pack: Packer, p: Pod, e: Event)
    requires !Publishes(pack, p, e)
    ensures Step(pack, p, e) == p
  {
    hide Effect, Apply;
  }

  lemma {:induction false} QuietSince(pack: Packer, events: seq<Event>, k: nat)
    requires k <= |events| && forall i :: k <= i < |events| ==> !PublishesAt(pack, events, i)
    ensures PodAfter(pack, events) == PodAfter(pack, events[..k])
  {
    hide Step, Publishes;
    if k == |events| {
      assert events[..k] == events;
    } else {
      var n := |events| - 1;
      assert events[..n][..k] == events[..k];
      forall i | k <= i < n ensures !PublishesAt(pack, events[..n], i) { PublishesAtInit(pack, events, n, i); }
      QuietSince(pack, events[..n], k);
      assert !PublishesAt(pack, events, n);
      Unpublished(pack, PodAfter(pack, events[..n]), events[n]);
    }
  }

  /** What the reconciles of a WAF left for it: the last one that came to an operation decides. */
  function Left(pack: Packer, events: seq<Event>, w: Waf): Option<Filters> {
    var op := Last(Ops(pack, events), w);
    if op.None? then None else EcdsStore.After(op.value)
  }

  lemma {:induction false} StoreLeft(pack: Packer, events: seq<Event>) returns (m: map<Waf, Filters>)
    requires Packs(pack) && PlainEvents(events)
    ensures Refines(PodAfter(pack, events).store, m) && forall w :: Holds(m, w) == Left(pack, events, w)
  {
    hide PodAfter, Ops, Run, RunMap, Last, Refines, Plain;
    StoreIs(pack, events);
    OpsPlain(pack, events);
    StartsEmpty();
    m := RunMap(map[], Ops(pack, events));
    RunRefines(map[], map[], Ops(pack, events));
    forall w ensures Holds(m, w) == Left(pack, events, w) { RunMapHolds(map[], Ops(pack, events), w); }
  }

  /** Two stores are equal exactly when the runs left the same for every WAF. */
  lemma {:induction false} SameStores(pack: Packer, a: seq<Event>, b: seq<Event>)
    requires Packs(pack) && PlainEvents(a) && PlainEvents(b)
    ensures PodAfter(pack, a).store == PodAfter(pack, b).store <==> forall w :: Left(pack, a, w) == Left(pack, b, w)
  {
    hide PodAfter, Left, Refines, Plain, Packs;
    var m := StoreLeft(pack, a);
    var n := StoreLeft(pack, b);
    if PodAfter(pack, a).store == PodAfter(pack, b).store {
      RefinesOnto(PodAfter(pack, a).store, m, n);
    }
    if forall w :: Left(pack, a, w) == Left(pack, b, w) {
      forall w ensures Holds(m, w) == Holds(n, w) { assert Left(pack, a, w) == Left(pack, b, w); }
      SameHolds(m, n);
      RefinesUnique(PodAfter(pack, a).store, PodAfter(pack, b).store, m);
    }
  }

  lemma PlainInit(events: seq<Event>, k: nat)
    requires PlainEvents(events) && k <= |events|
    ensures PlainEvents(events[..k])
  {
    hide Plain;
  }

  /** The pod serves its store exactly when no WAF was left anything new since the last accepted
      snapshot; in particular when the last snapshot was accepted. */
  lemma {:induction false} ServesStoreExactly(pack: Packer, events: seq<Event>)
    requires Packs(pack) && PlainEvents(events)
    ensures PodAfter(pack, events).served.resources == PodAfter(pack, events).store <==>
            forall w :: Left(pack, events[..Accepted(pack, events)], w) == Left(pack, events, w)
    ensures LastAccepted(pack, events) ==> PodAfter(pack, events).served.resources == PodAfter(pack, events).store
  {
    hide PodAfter, Left, Packs, Plain, Accepted, PublishesAt;
    var k := Accepted(pack, events);
    ServedIs(pack, events);
    PlainInit(events, k);
    SameStores(pack, events[..k], events);
    if LastAccepted(pack, events) { QuietSince(pack, events, k); }
  }

  /** Versions only grow, and every new snapshot carries a version no earlier one had. */
  lemma {:induction false} VersionsGrow(pack: Packer, events: seq<Event>)
    ensures var p := PodAfter(pack, events);
            && p.served.version <= p.version
            && (events != [] ==>
                  var before := PodAfter(pack, events[..|events| - 1]);
                  && (p.store != before.store || p.served != before.served ==> p.version == before.version + 1)
                  && (p.served != before.served ==> p.served.version == p.version > before.served.version))
  {
    hide Effect, Apply;
    if events != [] { VersionsGrow(pack, events[..|events| - 1]); }
  }

  // ----- last good

  ghost predicate PlainEvents(events: seq<Event>) { forall i :: 0 <= i < |events| ==> Plain(events[i].waf) }

  lemma {:induction false} OpsPlain(pack: Packer, events: seq<Event>)
    requires Packs(pack) && PlainEvents(events)
    ensures AllPlain(Ops(pack, events))
  {
    hide Plain, CanPublish;
    if events != [] {
      var n := |events| - 1;
      OpsPlain(pack, events[..n]);
      EffectOf(pack, events[n]);
    }
  }

  lemma EffectOf(pack: Packer, e: Event)
    requires Packs(pack)
    ensures Effect(pack, e).Some? ==> Of(Effect(pack, e).value) == e.waf
  {
    hide CanPublish;
  }

  /** The event built and published these filters for the WAF: no reference error, no failing
      step, and every data file the published directives name is among the published files. */
  ghost predicate Good(pack: Packer, e: Event, w: Waf, f: Filters) {
    && e.waf == w && e.view.Present? && e.view.files.Ok?
    && e.view.inputs.refErrors == 0 && !e.view.inputs.resolverFails
    && var r, s := e.view.files.value, e.view.inputs.settings;
    && Closed(r, e.view.inputs.directives)
    && pack(w, s, r.directives, r.files).Some? && f == FiltersOf(pack(w, s, r.directives, r.files).value)
  }

  lemma GoodPut(pack: Packer, e: Event)
    requires Packs(pack) && Honest(e.view) && Effect(pack, e).Some? && Effect(pack, e).value.Put?
    ensures Good(pack, e, e.waf, FiltersOf(Effect(pack, e).value.portable))
  {
    hide CanPublish, PublishOutcome, Closed;
    var i := e.view.inputs;
    PublishClosed(i.sources, i.ignore, i.directives, e.view.files.value);
  }

  /** The last event that came to an operation on the WAF. */
  lemma {:induction false} LastEvent(pack: Packer, events: seq<Event>, w: Waf) returns (j: nat)
    requires Packs(pack) && Last(Ops(pack, events), w).Some?
    ensures j < |events| && events[j].waf == w && Effect(pack, events[j]) == Last(Ops(pack, events), w)
    ensures forall i :: j < i < |events| && events[i].waf == w ==> Effect(pack, events[i]) == None
  {
    hide Effect;
    var n := |events| - 1;
    var front, effect := Ops(pack, events[..n]), Effect(pack, events[n]);
    EffectOf(pack, events[n]);
    if effect.Some? { assert (front + [effect.value])[..|front|] == front; } else { assert front + [] == front; }
    if effect.Some? && events[n].waf == w {
      j := n;
    } else {
      j := LastEvent(pack, events[..n], w);
    }
  }

  /** Whatever the run, what the pod serves for a WAF is the build of an observed state that was
      good, and no later reconcile up to the last accepted snapshot built or dropped the WAF:
      failing builds leave the last good entry in place, only a deletion removes it. */
  lemma {:induction false} ServesLastGood(pack: Packer, events: seq<Event>, w: Waf) returns (m: map<Waf, Filters>)
    requires Packs(pack) && PlainEvents(events) && forall i :: 0 <= i < |events| ==> Honest(events[i].view)
    ensures Refines(PodAfter(pack, events).served.resources, m)
    ensures var k := Accepted(pack, events);
            && (w in m ==>
                  exists j :: 0 <= j < k && Good(pack, events[j], w, m[w]) &&
                              forall i :: j < i < k && events[i].waf == w ==> Effect(pack, events[i]) == None)
            && (w !in m ==>
                  (forall i :: 0 <= i < k && events[i].waf == w ==> Effect(pack, events[i]) == None) ||
                  exists j :: 0 <= j < k && events[j].waf == w && (events[j].view.Gone? || events[j].view.Deleting?) &&
                              forall i :: j < i < k && events[i].waf == w ==> Effect(pack, events[i]) == None)
  {
    hide PodAfter, Ops, Effect, Run, Last, Refines, Good, Honest, Plain, Accepted, PublishesAt;
    var k := Accepted(pack, events);
    ServedIs(pack, events);
    var es := events[..k];
    PlainInit(events, k);
    m := StoreLeft(pack, es);
    assert Holds(m, w) == Left(pack, es, w);
    if Last(Ops(pack, es), w).Some? {
      var j := LastEvent(pack, es, w);
      LastGood(pack, events[j], w);
    } else {
      NoEvent(pack, es, w);
    }
  }

  lemma LastGood(pack: Packer, e: Event, w: Waf)
    requires Packs(pack) && Honest(e.view) && e.waf == w && Effect(pack, e).Some?
    ensures EcdsStore.After(Effect(pack, e).value).Some? ==>
              Good(pack, e, w, EcdsStore.After(Effect(pack, e).value).value)
    ensures EcdsStore.After(Effect(pack, e).value).None? ==> e.view.Gone? || e.view.Deleting?
  {
    hide Good, Honest, CanPublish;
    if Effect(pack, e).value.Put? { GoodPut(pack, e); }
  }

  lemma {:induction false} NoEvent(pack: Packer, events: seq<Event>, w: Waf)
    requires Packs(pack) && Last(Ops(pack, events), w) == None
    ensures forall i :: 0 <= i < |events| && events[i].waf == w ==> Effect(pack, events[i]) == None
  {
    hide Effect;
    if events != [] {
      var n := |events| - 1;
      var front, effect := Ops(pack, events[..n]), Effect(pack, events[n]);
      EffectOf(pack, events[n]);
      if effect.Some? { assert (front + [effect.value])[..|front|] == front; } else { assert front + [] == front; }
      NoEvent(pack, events[..n], w);
    }
  }

  /** The event neither stores nor drops the WAF. */
  ghost predicate Idles(pack: Packer, e: Event, w: Waf) {
    e.waf == w ==> !Drops(e) && forall p :: !Ready(pack, e, p)
  }

  lemma IdleEffect(pack: Packer, e: Event, w: Waf)
    requires Packs(pack) && Idles(pack, e, w) && Effect(pack, e).Some?
    ensures Of(Effect(pack, e).value) != w
  {
    hide Effect, Ready;
    EffectExactly(pack, e);
    EffectOf(pack, e);
  }

  lemma {:induction false} LastIs(pack: Packer, events: seq<Event>, j: nat, w: Waf)
    requires Packs(pack) && j < |events| && events[j].waf == w && Effect(pack, events[j]).Some?
    requires forall i :: j < i < |events| ==> Idles(pack, events[i], w)
    ensures Last(Ops(pack, events), w) == Effect(pack, events[j])
  {
    hide Effect, Idles;
    var n := |events| - 1;
    var front, effect := Ops(pack, events[..n]), Effect(pack, events[n]);
    EffectOf(pack, events[n]);
    if effect.Some? { assert (front + [effect.value])[..|front|] == front; } else { assert front + [] == front; }
    if j < n {
      if effect.Some? { IdleEffect(pack, events[n], w); }
      LastIs(pack, events[..n], j, w);
    }
  }

  /** A snapshot is accepted at or after every event that is ready and whose snapshot the cache takes. */
  lemma {:induction false} ReadyAccepted(pack: Packer, events: seq<Event>, j: nat, p: Portable)
    requires j < |events| && Ready(pack, events[j], p) && events[j].cached
    ensures Accepted(pack, events) > j
  {
    hide Effect, Ready;
    var n := |events| - 1;
    if j == n { EffectExactly(pack, events[n]); } else { ReadyAccepted(pack, events[..n], j, p); }
  }

  /** What is served for a WAF is what the last event before the last accepted snapshot that stored or
      dropped it left; and a ready event whose snapshot is taken comes before one. */
  lemma {:induction false} LastReadyIsServed(pack: Packer, events: seq<Event>, j: nat, w: Waf)
    requires Packs(pack) && PlainEvents(events) && j < |events| && events[j].waf == w
    requires forall i :: j < i < Accepted(pack, events) ==> Idles(pack, events[i], w)
    ensures forall p :: Ready(pack, events[j], p) && j < Accepted(pack, events) ==>
              p.waf == w && HoldsPacked(PodAfter(pack, events).served.resources, p)
    ensures forall p :: Ready(pack, events[j], p) && events[j].cached ==> j < Accepted(pack, events)
    ensures Drops(events[j]) && j < Accepted(pack, events) ==> HoldsNothing(PodAfter(pack, events).served.resources, w)
  {
    hide PodAfter, Ops, Effect, Ready, Last, Refines, Plain, Accepted, PublishesAt, Ext, ChallengeExt, Idles, CanPublish;
    var k := Accepted(pack, events);
    forall p | Ready(pack, events[j], p) && events[j].cached ensures j < k { ReadyAccepted(pack, events, j, p); }
    if j < k {
      ServedIs(pack, events);
      EffectExactly(pack, events[j]);
      if Effect(pack, events[j]).Some? {
        var es := events[..k];
        PlainInit(events, k);
        LastIs(pack, es, j, w);
        EffectOf(pack, events[j]);
        var m := StoreLeft(pack, es);
        assert Holds(m, w) == Left(pack, es, w);
        HeldFor(PodAfter(pack, es).store, m, w);
      }
    }
  }

  lemma HeldFor(s: Store, m: map<Waf, Filters>, w: Waf)
    requires Refines(s, m) && Plain(w)
    ensures w in m ==> Get(s, Ext(w)) == Some(m[w].engine) && Get(s, ChallengeExt(w)) == m[w].challenge
    ensures w !in m ==> HoldsNothing(s, w)
  {
    hide Under, Ext, ChallengeExt;
    RefinesNames(s, m, w);
    if w !in m && ChallengeExt(w) in s {
      ChallengeBelow(w);
      NothingUnder(s, w, ChallengeExt(w));
    }
  }

  // ----- deletions and several pods

  ghost predicate Puts(pack: Packer, e: Event, w: Waf) {
    Effect(pack, e).Some? && Effect(pack, e).value.Put? && e.waf == w
  }

  /** The run drops the WAF at `d` and does not put it back. */
  ghost predicate Dropped(pack: Packer, events: seq<Event>, d: nat, w: Waf) {
    && d < |events| && Effect(pack, events[d]) == Some(Drop(w))
    && forall i :: d < i < |events| ==> !Puts(pack, events[i], w)
  }

  lemma {:induction false} DroppedLeft(pack: Packer, events: seq<Event>, d: nat, w: Waf)
    requires Packs(pack) && Dropped(pack, events, d, w)
    ensures Last(Ops(pack, events), w) == Some(Drop(w))
  {
    hide Effect;
    var n := |events| - 1;
    var front, effect := Ops(pack, events[..n]), Effect(pack, events[n]);
    EffectOf(pack, events[n]);
    if effect.Some? { assert (front + [effect.value])[..|front|] == front; } else { assert front + [] == front; }
    if n > d {
      assert !Puts(pack, events[n], w);
      DroppedLeft(pack, events[..n], d, w);
    }
  }

  /** Dropping the WAF again finds nothing to remove, so it publishes nothing. */
  lemma {:induction false} RepeatedDropSilent(pack: Packer, events: seq<Event>, d: nat, w: Waf, i: nat)
    requires Packs(pack) && PlainEvents(events) && Dropped(pack, events, d, w)
    requires d < i < |events| && Effect(pack, events[i]) == Some(Drop(w))
    ensures !PublishesAt(pack, events, i)
  {
    hide PodAfter, Ops, Last, Refines, Effect, Under, Plain, Without;
    var es := events[..i];
    PlainInit(events, i);
    assert Dropped(pack, es, d, w);
    DroppedLeft(pack, es, d, w);
    var m := StoreLeft(pack, es);
    assert Holds(m, w) == Left(pack, es, w);
    EffectOf(pack, events[i]);
    assert Plain(w);
    RefinesNames(PodAfter(pack, es).store, m, w);
  }

  lemma {:induction false} AcceptedInit(pack: Packer, events: seq<Event>, n: nat)
    requires Accepted(pack, events) <= n <= |events|
    ensures Accepted(pack, events[..n]) == Accepted(pack, events)
  {
    hide PublishesAt;
    if n == |events| {
      assert events[..n] == events;
    } else {
      var l := |events| - 1;
      AcceptedInit(pack, events[..l], n);
      assert events[..l][..n] == events[..n];
    }
  }

  /** A deletion whose snapshot the cache refuses: repeating it does not help, and the WAF stays
      served until a snapshot of something else is accepted. It is still served exactly when it was
      served before and nothing was accepted since. */
  lemma {:induction false} RefusedDeletionStays(pack: Packer, events: seq<Event>, d: nat, w: Waf)
    requires Packs(pack) && PlainEvents(events) && Dropped(pack, events, d, w) && !events[d].cached
    ensures Ext(w) in PodAfter(pack, events).served.resources <==>
            Ext(w) in PodAfter(pack, events[..d]).served.resources && Accepted(pack, events) <= d
    ensures forall i :: d < i < |events| && Effect(pack, events[i]) == Some(Drop(w)) ==> !PublishesAt(pack, events, i)
  {
    hide PodAfter, Ops, Last, Refines, Effect, Ext, Plain, Accepted, PublishesAt;
    var k := Accepted(pack, events);
    ServedIs(pack, events);
    if k <= d {
      AcceptedInit(pack, events, d);
      ServedIs(pack, events[..d]);
      assert events[..d][..k] == events[..k];
    } else {
      assert k != d + 1;
      var es := events[..k];
      PlainInit(events, k);
      assert Dropped(pack, es, d, w);
      DroppedLeft(pack, es, d, w);
      var m := StoreLeft(pack, es);
      assert Holds(m, w) == Left(pack, es, w);
      EffectOf(pack, events[d]);
      assert Plain(w);
      RefinesNames(PodAfter(pack, es).store, m, w);
    }
    forall i | d < i < |events| && Effect(pack, events[i]) == Some(Drop(w)) ensures !PublishesAt(pack, events, i) {
      RepeatedDropSilent(pack, events, d, w, i);
    }
  }

  /** Two pods serve the same exactly when their reconciles had left the same for every WAF by the
      last snapshot each accepted. */
  lemma {:induction false} PodsServeTheSame(pack: Packer, a: seq<Event>, b: seq<Event>)
    requires Packs(pack) && PlainEvents(a) && PlainEvents(b)
    ensures PodAfter(pack, a).served.resources == PodAfter(pack, b).served.resources <==>
            forall w :: Left(pack, a[..Accepted(pack, a)], w) == Left(pack, b[..Accepted(pack, b)], w)
  {
    hide PodAfter, Left, Packs, Plain, Accepted, PublishesAt;
    ServedIs(pack, a);
    ServedIs(pack, b);
    PlainInit(a, Accepted(pack, a));
    PlainInit(b, Accepted(pack, b));
    SameStores(pack, a[..Accepted(pack, a)], b[..Accepted(pack, b)]);
  }

  /** So pods whose last snapshots were accepted serve the same exactly when their reconciles left
      the same for every WAF, whatever was refused before and in whatever order they ran. */
  lemma {:induction false} PodsConverge(pack: Packer, a: seq<Event>, b: seq<Event>)
    requires Packs(pack) && PlainEvents(a) && PlainEvents(b) && LastAccepted(pack, a) && LastAccepted(pack, b)
    ensures PodAfter(pack, a).served.resources == PodAfter(pack, b).served.resources <==>
            forall w :: Left(pack, a, w) == Left(pack, b, w)
  {
    hide PodAfter, Left, Packs, Plain, LastAccepted;
    ServesStoreExactly(pack, a);
    ServesStoreExactly(pack, b);
    SameStores(pack, a, b);
  }
}
