/** Query slots: a global semaphore and one per namespace, taken and given back by requests that
    run side by side. The semaphores of idle namespaces are evicted when there are too many. */
module QuerySlots {
  import opened Text

  /** Caps of the two kinds of semaphore, the most entries of the map, and whether finding a
      semaphore and sending on it are taken as one step. */
  datatype Config = Config(globalCap: nat, cap: nat, maxEntries: nat, atomic: bool)

  /** How far a request is. `ns` is empty for the route without a namespace. */
  datatype Request =
    | Idle
    | Entered(ns: string)               // holds a global slot
    | Found(ns: string, found: nat)       // has looked its semaphore up
    | Refused(ns: string)               // still holds the global slot
    | Holding(ns: string, sem: Option<nat>)
    | Draining(ns: string, sem: Option<nat>)  // has looked up the semaphore to drain
    | Leaving(ns: string)

  /** Semaphores are numbered as they are made; `sems` is the map, `lens` how full each one is. */
  datatype State = State(global: nat, sems: map<string, nat>, lens: seq<nat>, requests: map<nat, Request>)

  // ----- steps

  predicate IsIdle(s: State, ns: string) { ns in s.sems && s.sems[ns] < |s.lens| && s.lens[s.sems[ns]] == 0 }

  /** The map after eviction: one idle entry goes when the map is full. */
  function Evicted(c: Config, s: State, victim: string): map<string, nat> {
    if |s.sems| >= c.maxEntries && IsIdle(s, victim) then s.sems - {victim} else s.sems
  }

  function At(s: State, r: nat): Request { if r in s.requests then s.requests[r] else Idle }

  function Set(s: State, r: nat, x: Request): State { s.(requests := s.requests[r := x]) }

  function Send(c: Config, s: State, r: nat, ns: string, sem: nat): State {
    if sem < |s.lens| && s.lens[sem] < c.cap then
      Set(s.(lens := s.lens[sem := s.lens[sem] + 1]), r, Holding(ns, Some(sem)))
    else Set(s, r, Refused(ns))
  }

  function SendOrWait(c: Config, s: State, r: nat, ns: string, sem: nat): State {
    if c.atomic then Send(c, s, r, ns, sem) else Set(s, r, Found(ns, sem))
  }

  function LookUp(c: Config, s: State, r: nat, ns: string, victim: string): State {
    if ns in s.sems then SendOrWait(c, s, r, ns, s.sems[ns])
    else
      var sems := Evicted(c, s, victim);
      if |sems| >= c.maxEntries then Set(s.(sems := sems), r, Refused(ns))
      else SendOrWait(c, s.(sems := sems[ns := |s.lens|], lens := s.lens + [0]), r, ns, |s.lens|)
  }

  /** The next step of request `r`. `ns` is the namespace it asks for when it starts; `victim` is
      the idle entry the eviction loop meets first. */
  function Step(c: Config, s: State, r: nat, ns: string, victim: string): State {
    match At(s, r)
    case Idle =>
      if s.global >= c.globalCap then s
      else Set(s.(global := s.global + 1), r, if ns == "" then Holding("", None) else Entered(ns))
    case Entered(n) => LookUp(c, s, r, n, victim)
    case Found(n, sem) => Send(c, s, r, n, sem)
    case Refused(n) => Set(s.(global := if s.global > 0 then s.global - 1 else 0), r, Idle)
    case Holding(n, _) =>
      if n == "" then Set(s, r, Leaving(n))
      else Set(s, r, Draining(n, if n in s.sems then Some(s.sems[n]) else None))
    case Draining(n, sem) =>
      if sem.Some? && sem.value < |s.lens| && s.lens[sem.value] > 0 then
        Set(s.(lens := s.lens[sem.value := s.lens[sem.value] - 1]), r, Leaving(n))
      else Set(s, r, Leaving(n))
    case Leaving(n) => Set(s.(global := if s.global > 0 then s.global - 1 else 0), r, Idle)
  }

  const START := State(0, map[], [], map[])

  /** A move: which request steps, and what it picks. */
  datatype Move = Move(request: nat, ns: string, victim: string)

  function Run(c: Config, moves: seq<Move>): State {
    if moves == [] then START
    else
      var n := |moves| - 1;
      Step(c, Run(c, moves[..n]), moves[n].request, moves[n].ns, moves[n].victim)
  }

  // ----- counting requests

  function Where(m: map<nat, Request>, p: Request -> bool): set<nat> { set r | r in m && p(m[r]) }

  function Bit(b: bool): nat { if b then 1 else 0 }

  lemma CountSet(m: map<nat, Request>, r: nat, x: Request, p: Request -> bool)
    ensures |Where(m[r := x], p)| == |Where(m, p)| - Bit(r in m && p(m[r])) + Bit(p(x))
  {
    var a, b := Where(m, p), Where(m[r := x], p);
    assert a - {r} == b - {r};
    SizeWith(a, r);
    SizeWith(b, r);
  }

  lemma SizeWith(a: set<nat>, r: nat)
    ensures |a| == |a - {r}| + Bit(r in a)
  {
    if r !in a { assert a - {r} == a; }
  }

  // ----- the global semaphore, in every interleaving

  function Inside(x: Request): bool { !x.Idle? }

  /** The global semaphore counts the requests that are inside, and the map is never too big. */
  ghost predicate GlobalRight(c: Config, s: State) {
    && s.global == |Where(s.requests, Inside)| <= c.globalCap
    && |s.sems| <= c.maxEntries
  }

  lemma InsideCounts(s: State, r: nat, x: Request)
    ensures |Where(Set(s, r, x).requests, Inside)| == |Where(s.requests, Inside)| - Bit(Inside(At(s, r))) + Bit(Inside(x))
  {
    CountSet(s.requests, r, x, Inside);
  }

  lemma SomeoneInside(s: State, r: nat)
    requires Inside(At(s, r))
    ensures |Where(s.requests, Inside)| > 0
  {
    assert r in Where(s.requests, Inside);
  }

  lemma EvictedSize(c: Config, s: State, victim: string)
    ensures |Evicted(c, s, victim)| <= |s.sems|
    ensures forall ns :: ns in Evicted(c, s, victim) ==> ns in s.sems && Evicted(c, s, victim)[ns] == s.sems[ns]
  {
    var e := Evicted(c, s, victim);
    if e != s.sems {
      assert e.Keys == s.sems.Keys - {victim};
      assert |e.Keys| == |s.sems.Keys| - 1;
    }
  }

  lemma LookUpGlobal(c: Config, s: State, r: nat, ns: string, victim: string) returns (x: Request)
    requires |s.sems| <= c.maxEntries
    ensures var t := LookUp(c, s, r, ns, victim);
            && t.global == s.global && |t.sems| <= c.maxEntries
            && Inside(x) && t.requests == s.requests[r := x]
  {
    hide Evicted, SendOrWait;
    EvictedSize(c, s, victim);
    var sems := Evicted(c, s, victim);
    if ns in s.sems {
      x := SendKeeps(c, s, r, ns, s.sems[ns]);
    } else if |sems| >= c.maxEntries {
      x := Refused(ns);
    } else {
      assert sems[ns := |s.lens|].Keys == sems.Keys + {ns};
      x := SendKeeps(c, s.(sems := sems[ns := |s.lens|], lens := s.lens + [0]), r, ns, |s.lens|);
    }
  }

  lemma SendKeeps(c: Config, s: State, r: nat, ns: string, sem: nat) returns (x: Request)
    ensures var t := SendOrWait(c, s, r, ns, sem);
            t.global == s.global && t.sems == s.sems && Inside(x) && t.requests == s.requests[r := x]
  {
    x := SendOrWait(c, s, r, ns, sem).requests[r];
  }

  lemma StepGlobal(c: Config, s: State, r: nat, ns: string, victim: string)
    requires GlobalRight(c, s)
    ensures GlobalRight(c, Step(c, s, r, ns, victim))
  {
    hide Where, LookUp;
    var was, t := At(s, r), Step(c, s, r, ns, victim);
    if Inside(was) { SomeoneInside(s, r); }
    if was.Entered? { var _ := LookUpGlobal(c, s, r, was.ns, victim); }
    if t != s {
      assert t.requests == s.requests[r := At(t, r)];
      InsideCounts(s, r, At(t, r));
    }
  }

  /** Over every run: as many global slots are taken as there are requests inside, never more than
      the cap, and the map stays within its limit. */
  lemma {:induction false} RunGlobal(c: Config, moves: seq<Move>)
    ensures GlobalRight(c, Run(c, moves))
  {
    hide GlobalRight, Step;
    if moves == [] {
      StartRight(c);
    } else {
      var n := |moves| - 1;
      RunGlobal(c, moves[..n]);
      StepGlobal(c, Run(c, moves[..n]), moves[n].request, moves[n].ns, moves[n].victim);
    }
  }

  lemma StartRight(c: Config)
    ensures GlobalRight(c, START)
  {
    assert Where(map[], Inside) == {};
  }

  // ----- the semaphores of namespaces

  /** The request holds a slot of semaphore `k`. */
  predicate Holds(x: Request, k: nat) { (x.Holding? || x.Draining?) && x.sem == Some(k) }

  function HoldersOf(k: nat): Request -> bool { x => Holds(x, k) }

  /** Entries of the map are different semaphores. */
  ghost predicate Indexed(s: State) {
    && (forall a :: a in s.sems ==> s.sems[a] < |s.lens|)
    && forall a, b :: a in s.sems && b in s.sems && s.sems[a] == s.sems[b] ==> a == b
  }

  /** Every semaphore is as full as it has holders, and never beyond its cap. */
  ghost predicate Counted(c: Config, s: State) {
    forall k :: 0 <= k < |s.lens| ==> s.lens[k] == |Where(s.requests, HoldersOf(k))| <= c.cap
  }

  /** A request in this condition is served by the entry of its namespace. */
  predicate Served(s: State, x: Request) {
    match x
    case Idle => true
    case Entered(ns) => ns != ""
    case Found(ns, sem) => ns != "" && ns in s.sems && s.sems[ns] == sem
    case Refused(_) => true
    case Holding(ns, sem) => if ns == "" then sem == None else ns in s.sems && sem == Some(s.sems[ns])
    case Draining(ns, sem) => ns in s.sems && sem == Some(s.sems[ns])
    case Leaving(_) => true
  }

  ghost predicate Paired(s: State) {
    forall r :: r in s.requests ==> Served(s, s.requests[r])
  }

  ghost predicate SemsRight(c: Config, s: State) { Indexed(s) && Counted(c, s) && Paired(s) }

  lemma HolderCounts(s: State, r: nat, x: Request, k: nat)
    ensures |Where(s.requests[r := x], HoldersOf(k))| ==
            |Where(s.requests, HoldersOf(k))| - Bit(Holds(At(s, r), k)) + Bit(Holds(x, k))
  {
    hide Where;
    CountSet(s.requests, r, x, HoldersOf(k));
  }

  /** The request moves on without taking or giving back a slot. */
  lemma MoveOn(c: Config, s: State, r: nat, x: Request)
    requires SemsRight(c, s) && Served(s, x) && (forall k :: Holds(x, k) <==> Holds(At(s, r), k))
    ensures SemsRight(c, Set(s, r, x))
  {
    hide Where, Holds, Served;
    forall k | 0 <= k < |s.lens| { HolderCounts(s, r, x, k); }
    var t := Set(s, r, x);
    forall q | q in t.requests ensures Served(t, t.requests[q]) { SameServed(s, t, t.requests[q]); }
  }

  lemma SameServed(s: State, t: State, x: Request)
    requires s.sems == t.sems
    ensures Served(s, x) == Served(t, x)
  {
  }

  lemma SendRight(c: Config, s: State, r: nat, ns: string)
    requires SemsRight(c, s) && ns != "" && ns in s.sems && (forall k :: !Holds(At(s, r), k))
    ensures SemsRight(c, Send(c, s, r, ns, s.sems[ns]))
  {
    hide Where, Served;
    var sem := s.sems[ns];
    if s.lens[sem] < c.cap {
      var x := Holding(ns, Some(sem));
      var t := Send(c, s, r, ns, sem);
      forall k | 0 <= k < |s.lens| { HolderCounts(s, r, x, k); }
      assert Served(s, x) by { ServedBy(s, ns); }
      forall q | q in t.requests ensures Served(t, t.requests[q]) { SameServed(s, t, t.requests[q]); }
    } else {
      assert Served(s, Refused(ns)) by { RefusedServed(s, ns); }
      MoveOn(c, s, r, Refused(ns));
    }
  }

  lemma ServedBy(s: State, ns: string)
    requires ns != "" && ns in s.sems
    ensures Served(s, Holding(ns, Some(s.sems[ns])))
  {
  }

  lemma RefusedServed(s: State, ns: string)
    ensures Served(s, Refused(ns))
  {
  }

  /** A request has looked up semaphore `k` and not yet sent on it. */
  ghost predicate Awaited(s: State, k: nat) {
    exists q :: q in s.requests && s.requests[q].Found? && s.requests[q].found == k
  }

  /** The map is full and `victim` goes. */
  predicate Evicts(c: Config, s: State, r: nat, victim: string) {
    At(s, r).Entered? && At(s, r).ns !in s.sems && |s.sems| >= c.maxEntries && IsIdle(s, victim)
  }

  /** The step evicts a semaphore that a request is about to send on. */
  ghost predicate Disturbs(c: Config, s: State, r: nat, victim: string) {
    Evicts(c, s, r, victim) && Awaited(s, s.sems[victim])
  }

  /** Evicting an idle entry leaves every request with its semaphore, unless one is about to send. */
  lemma EvictRight(c: Config, s: State, victim: string)
    requires SemsRight(c, s) && (|s.sems| >= c.maxEntries && IsIdle(s, victim) ==> !Awaited(s, s.sems[victim]))
    ensures SemsRight(c, s.(sems := Evicted(c, s, victim)))
  {
    hide Where, Evicted, Awaited, IsIdle;
    EvictedSize(c, s, victim);
    var t := s.(sems := Evicted(c, s, victim));
    forall q | q in s.requests ensures Served(t, s.requests[q]) { NotEvicted(c, s, victim, q); }
  }

  lemma NotEvicted(c: Config, s: State, victim: string, q: nat)
    requires SemsRight(c, s) && q in s.requests
    requires |s.sems| >= c.maxEntries && IsIdle(s, victim) ==> !Awaited(s, s.sems[victim])
    ensures Served(s.(sems := Evicted(c, s, victim)), s.requests[q])
  {
    var x := s.requests[q];
    if IsIdle(s, victim) && (x.Holding? || x.Draining?) && x.ns == victim && x.sem.Some? {
      assert q in Where(s.requests, HoldersOf(x.sem.value));
      assert |Where(s.requests, HoldersOf(x.sem.value))| > 0;
    }
  }

  lemma AddRight(c: Config, s: State, ns: string)
    requires SemsRight(c, s) && ns !in s.sems
    ensures SemsRight(c, s.(sems := s.sems[ns := |s.lens|], lens := s.lens + [0]))
  {
    var t := s.(sems := s.sems[ns := |s.lens|], lens := s.lens + [0]);
    assert Where(s.requests, HoldersOf(|s.lens|)) == {} by {
      forall q | q in s.requests ensures !Holds(s.requests[q], |s.lens|) { assert Served(s, s.requests[q]); }
    }
    forall q | q in s.requests ensures Served(t, s.requests[q]) { assert Served(s, s.requests[q]); }
  }

  lemma SendOrWaitRight(c: Config, s: State, r: nat, ns: string)
    requires SemsRight(c, s) && ns != "" && ns in s.sems && At(s, r) == Entered(ns)
    ensures SemsRight(c, SendOrWait(c, s, r, ns, s.sems[ns]))
  {
    hide Send, SemsRight;
    if c.atomic { SendRight(c, s, r, ns); } else { MoveOn(c, s, r, Found(ns, s.sems[ns])); }
  }

  lemma LookUpRight(c: Config, s: State, r: nat, victim: string)
    requires SemsRight(c, s) && At(s, r).Entered? && !Disturbs(c, s, r, victim)
    ensures SemsRight(c, LookUp(c, s, r, At(s, r).ns, victim))
  {
    hide SendOrWait, SemsRight, Evicted, Awaited, IsIdle;
    var ns := At(s, r).ns;
    assert ns != "" by { EnteredNamed(c, s, r); }
    if ns in s.sems {
      SendOrWaitRight(c, s, r, ns);
    } else {
      EvictRight(c, s, victim);
      EvictedSize(c, s, victim);
      var t := s.(sems := Evicted(c, s, victim));
      if |t.sems| >= c.maxEntries {
        MoveOn(c, t, r, Refused(ns));
      } else {
        AddRight(c, t, ns);
        SendOrWaitRight(c, t.(sems := t.sems[ns := |s.lens|], lens := s.lens + [0]), r, ns);
      }
    }
  }

  lemma EnteredNamed(c: Config, s: State, r: nat)
    requires SemsRight(c, s) && At(s, r).Entered?
    ensures At(s, r).ns != ""
  {
    assert Served(s, s.requests[r]);
  }

  lemma DrainRight(c: Config, s: State, r: nat)
    requires SemsRight(c, s) && At(s, r).Draining?
    ensures At(s, r).sem.Some? && At(s, r).sem.value < |s.lens| && s.lens[At(s, r).sem.value] > 0
    ensures var k := At(s, r).sem.value;
            SemsRight(c, Set(s.(lens := s.lens[k := s.lens[k] - 1]), r, Leaving(At(s, r).ns)))
  {
    var x := s.requests[r];
    assert Served(s, x);
    var k := x.sem.value;
    assert r in Where(s.requests, HoldersOf(k));
    DrainCounts(c, s, r);
  }

  lemma DrainCounts(c: Config, s: State, r: nat)
    requires SemsRight(c, s) && At(s, r).Draining? && At(s, r).sem.Some? && At(s, r).sem.value < |s.lens|
    requires s.lens[At(s, r).sem.value] > 0
    ensures var k := At(s, r).sem.value;
            SemsRight(c, Set(s.(lens := s.lens[k := s.lens[k] - 1]), r, Leaving(At(s, r).ns)))
  {
    hide Where;
    var x, k := s.requests[r], At(s, r).sem.value;
    var t := Set(s.(lens := s.lens[k := s.lens[k] - 1]), r, Leaving(x.ns));
    forall j | 0 <= j < |s.lens| { HolderCounts(s, r, Leaving(x.ns), j); }
    forall q | q in t.requests ensures Served(t, t.requests[q]) { SameServed(s, t, t.requests[q]); }
  }

  lemma GlobalOnly(c: Config, s: State, g: nat)
    requires SemsRight(c, s)
    ensures SemsRight(c, s.(global := g))
  {
    hide Where;
    var t := s.(global := g);
    forall q | q in t.requests ensures Served(t, t.requests[q]) { SameServed(s, t, t.requests[q]); }
  }

  lemma HoldingServed(c: Config, s: State, r: nat)
    requires SemsRight(c, s) && At(s, r).Holding? && At(s, r).ns != ""
    ensures At(s, r).ns in s.sems && At(s, r).sem == Some(s.sems[At(s, r).ns])
  {
    assert Served(s, s.requests[r]);
  }

  lemma FoundServed(c: Config, s: State, r: nat)
    requires SemsRight(c, s)
    ensures At(s, r).Found? ==> At(s, r).ns != "" && At(s, r).ns in s.sems && At(s, r).found == s.sems[At(s, r).ns]
    ensures At(s, r).Holding? && At(s, r).ns == "" ==> At(s, r).sem == None
  {
    if r in s.requests { assert Served(s, s.requests[r]); }
  }

  lemma StepRight(c: Config, s: State, r: nat, ns: string, victim: string)
    requires SemsRight(c, s) && !Disturbs(c, s, r, victim)
    ensures SemsRight(c, Step(c, s, r, ns, victim))
  {
    hide SemsRight, LookUp, Send, Disturbs;
    FoundServed(c, s, r);
    match At(s, r)
    case Idle =>
      GlobalOnly(c, s, s.global + 1);
      MoveOn(c, s.(global := s.global + 1), r, if ns == "" then Holding("", None) else Entered(ns));
    case Entered(n) => LookUpRight(c, s, r, victim);
    case Found(n, _) => SendRight(c, s, r, n);
    case Holding(n, _) =>
      if n == "" {
        MoveOn(c, s, r, Leaving(n));
      } else {
        HoldingServed(c, s, r);
        MoveOn(c, s, r, Draining(n, Some(s.sems[n])));
      }
    case Draining(n, sem) => DrainRight(c, s, r);
    case Refused(n) => LeaveRight(c, s, r);
    case Leaving(n) => LeaveRight(c, s, r);
  }

  lemma LeaveRight(c: Config, s: State, r: nat)
    requires SemsRight(c, s) && (At(s, r).Refused? || At(s, r).Leaving?)
    ensures SemsRight(c, Set(s.(global := if s.global > 0 then s.global - 1 else 0), r, Idle))
  {
    hide SemsRight;
    var g := if s.global > 0 then s.global - 1 else 0;
    GlobalOnly(c, s, g);
    MoveOn(c, s.(global := g), r, Idle);
  }

  lemma StartSems(c: Config)
    ensures SemsRight(c, START)
  {
  }

  /** No step of the run evicts a semaphore that a request is about to send on. */
  ghost predicate Undisturbed(c: Config, moves: seq<Move>) {
    forall n :: 0 <= n < |moves| ==> !Disturbs(c, Run(c, moves[..n]), moves[n].request, moves[n].victim)
  }

  lemma UndisturbedInit(c: Config, moves: seq<Move>, n: nat)
    requires Undisturbed(c, moves) && n <= |moves|
    ensures Undisturbed(c, moves[..n])
  {
    hide Disturbs, Run;
    forall i | 0 <= i < n ensures !Disturbs(c, Run(c, moves[..n][..i]), moves[..n][i].request, moves[..n][i].victim) {
      assert moves[..n][..i] == moves[..i];
    }
  }

  /** Over every undisturbed run each semaphore is as full as it has holders and within its cap, and
      the semaphore of every request that has one is still the map's entry. */
  lemma {:induction false} RunRight(c: Config, moves: seq<Move>)
    requires Undisturbed(c, moves)
    ensures SemsRight(c, Run(c, moves))
  {
    hide SemsRight, Step, Disturbs;
    if moves == [] {
      StartSems(c);
    } else {
      var n := |moves| - 1;
      UndisturbedInit(c, moves, n);
      RunRight(c, moves[..n]);
      StepRight(c, Run(c, moves[..n]), moves[n].request, moves[n].ns, moves[n].victim);
    }
  }

  /** A disturbing step leaves a request with a semaphore that is no entry any more. */
  lemma DisturbedWrong(c: Config, s: State, r: nat, ns: string, victim: string)
    requires SemsRight(c, s) && Disturbs(c, s, r, victim)
    ensures !SemsRight(c, Step(c, s, r, ns, victim))
  {
    hide Where, Counted;
    var q :| q in s.requests && s.requests[q].Found? && s.requests[q].found == s.sems[victim];
    var x := s.requests[q];
    assert Served(s, x);
    assert x.ns == victim;
    var t := Step(c, s, r, ns, victim);
    assert q in t.requests && t.requests[q] == x;
    assert victim !in t.sems;
    assert !Served(t, t.requests[q]);
  }

  /** It is right all along exactly when the run is undisturbed. */
  lemma RightExactly(c: Config, moves: seq<Move>)
    ensures (forall n :: 0 <= n <= |moves| ==> SemsRight(c, Run(c, moves[..n]))) <==> Undisturbed(c, moves)
  {
    hide SemsRight, Disturbs, Run;
    if Undisturbed(c, moves) {
      forall n | 0 <= n <= |moves| ensures SemsRight(c, Run(c, moves[..n])) {
        UndisturbedInit(c, moves, n);
        RunRight(c, moves[..n]);
      }
    } else {
      var n :| 0 <= n < |moves| && Disturbs(c, Run(c, moves[..n]), moves[n].request, moves[n].victim);
      if SemsRight(c, Run(c, moves[..n])) {
        DisturbedWrong(c, Run(c, moves[..n]), moves[n].request, moves[n].ns, moves[n].victim);
        RunSnoc(c, moves[..n], moves[n]);
        assert moves[..n] + [moves[n]] == moves[..n + 1];
        assert !SemsRight(c, Run(c, moves[..n + 1]));
      }
    }
  }

  /** So giving a slot back drains the semaphore the slot was taken from. */
  lemma {:induction false} DrainsItsOwn(c: Config, moves: seq<Move>, r: nat, ns: string, victim: string)
    requires Undisturbed(c, moves) && At(Run(c, moves), r).Holding? && At(Run(c, moves), r).ns != ""
    ensures var s := Run(c, moves);
            var t := Step(c, s, r, ns, victim);
            var u := Step(c, t, r, ns, victim);
            && At(s, r).sem.Some? && var k := At(s, r).sem.value;
            && k < |s.lens| && s.lens[k] > 0
            && At(t, r) == Draining(At(s, r).ns, Some(k)) && t.lens == s.lens
            && u.lens == s.lens[k := s.lens[k] - 1]
  {
    hide Run, SemsRight, Undisturbed;
    RunRight(c, moves);
    var s := Run(c, moves);
    HoldingServed(c, s, r);
    var t := Step(c, s, r, ns, victim);
    StepRight(c, s, r, ns, victim);
    DrainRight(c, t, r);
  }

  predicate HoldsFor(x: Request, ns: string) { (x.Holding? || x.Draining?) && x.ns == ns }

  function SlotsOf(ns: string): Request -> bool { x => HoldsFor(x, ns) }

  /** And no namespace has more requests under way than its cap: going over it takes a disturbing step. */
  lemma WithinCap(c: Config, moves: seq<Move>, ns: string)
    requires Undisturbed(c, moves) && ns != ""
    ensures |Where(Run(c, moves).requests, SlotsOf(ns))| <= c.cap
  {
    hide Run, Undisturbed;
    RunRight(c, moves);
    SlotsCounted(c, Run(c, moves), ns);
  }

  lemma SlotsCounted(c: Config, s: State, ns: string)
    requires SemsRight(c, s) && ns != ""
    ensures |Where(s.requests, SlotsOf(ns))| <= c.cap
  {
    var held := Where(s.requests, SlotsOf(ns));
    forall r | r in held ensures ns in s.sems && Holds(s.requests[r], s.sems[ns]) { assert Served(s, s.requests[r]); }
    if ns in s.sems {
      assert held <= Where(s.requests, HoldersOf(s.sems[ns]));
      Fewer(held, Where(s.requests, HoldersOf(s.sems[ns])));
    } else {
      assert held == {};
    }
  }

  // ----- runs that are undisturbed

  /** All namespaces that requests or the map know are among `names`. */
  ghost predicate Knows(s: State, names: set<string>) {
    s.sems.Keys <= names && forall r :: r in s.requests && s.requests[r].Entered? ==> s.requests[r].ns in names
  }

  lemma LookUpKnows(c: Config, s: State, r: nat, victim: string, names: set<string>)
    requires Knows(s, names) && At(s, r).Entered?
    ensures Knows(LookUp(c, s, r, At(s, r).ns, victim), names)
  {
    hide Evicted;
    EvictedSize(c, s, victim);
    var t := LookUp(c, s, r, At(s, r).ns, victim);
    assert forall n :: n in t.sems ==> n in s.sems || n == At(s, r).ns;
  }

  lemma StepKnows(c: Config, s: State, r: nat, ns: string, victim: string, names: set<string>)
    requires Knows(s, names) && (ns == "" || ns in names)
    ensures Knows(Step(c, s, r, ns, victim), names)
  {
    hide LookUp;
    if At(s, r).Entered? { LookUpKnows(c, s, r, victim, names); }
  }

  ghost predicate Asks(moves: seq<Move>, names: set<string>) {
    forall n :: 0 <= n < |moves| ==> moves[n].ns == "" || moves[n].ns in names
  }

  lemma {:induction false} RunKnows(c: Config, moves: seq<Move>, names: set<string>)
    requires Asks(moves, names)
    ensures Knows(Run(c, moves), names)
  {
    hide Knows, Step;
    if moves == [] {
      StartKnows(names);
    } else {
      var n := |moves| - 1;
      RunKnows(c, moves[..n], names);
      StepKnows(c, Run(c, moves[..n]), moves[n].request, moves[n].ns, moves[n].victim, names);
    }
  }

  lemma StartKnows(names: set<string>)
    ensures Knows(START, names)
  {
  }

  lemma NoEviction(c: Config, s: State, r: nat, victim: string, names: set<string>)
    requires Knows(s, names) && |names| <= c.maxEntries
    ensures !Evicts(c, s, r, victim)
  {
    if At(s, r).Entered? && At(s, r).ns !in s.sems {
      assert s.sems.Keys <= names - {At(s, r).ns};
      Fewer(s.sems.Keys, names - {At(s, r).ns});
    }
  }

  /** While no more namespaces are asked for than the map may have entries, nothing is evicted. */
  lemma FewNamespaces(c: Config, moves: seq<Move>, names: set<string>)
    requires Asks(moves, names) && |names| <= c.maxEntries
    ensures Undisturbed(c, moves)
  {
    hide Run;
    forall n | 0 <= n < |moves| ensures !Disturbs(c, Run(c, moves[..n]), moves[n].request, moves[n].victim) {
      RunKnows(c, moves[..n], names);
      NoEviction(c, Run(c, moves[..n]), moves[n].request, moves[n].victim, names);
    }
  }

  ghost predicate NoneFound(s: State) { forall q :: q in s.requests ==> !s.requests[q].Found? }

  lemma StepNoneFound(c: Config, s: State, r: nat, ns: string, victim: string)
    requires c.atomic && NoneFound(s)
    ensures NoneFound(Step(c, s, r, ns, victim))
  {
    hide Evicted;
  }

  lemma {:induction false} RunNoneFound(c: Config, moves: seq<Move>)
    requires c.atomic
    ensures NoneFound(Run(c, moves))
  {
    hide Step;
    if moves != [] {
      var n := |moves| - 1;
      RunNoneFound(c, moves[..n]);
      StepNoneFound(c, Run(c, moves[..n]), moves[n].request, moves[n].ns, moves[n].victim);
    }
  }

  /** If a semaphore were found and sent on in one step, every run would be undisturbed. */
  lemma OneStepUndisturbed(c: Config, moves: seq<Move>)
    requires c.atomic
    ensures Undisturbed(c, moves)
  {
    hide Run;
    forall n | 0 <= n < |moves| ensures !Disturbs(c, Run(c, moves[..n]), moves[n].request, moves[n].victim) {
      RunNoneFound(c, moves[..n]);
    }
  }

  // ----- when finding and sending are two steps

  lemma RunSnoc(c: Config, moves: seq<Move>, m: Move)
    ensures Run(c, moves + [m]) == Step(c, Run(c, moves), m.request, m.ns, m.victim)
  {
    assert (moves + [m])[..|moves|] == moves;
  }

  /** The first of two requests finds its semaphore, which is evicted before it sends: a third
      request gets a new semaphore for the same namespace, and both hold slots of a namespace
      whose cap is one. */
  lemma TwoStepsOvershoot() returns (c: Config, moves: seq<Move>)
    ensures !c.atomic && c.cap == 1
    ensures var s := Run(c, moves);
            && At(s, 0) == Holding("a", Some(0)) && At(s, 2) == Holding("a", Some(2))
  {
    hide Run;
    c := Config(3, 1, 1, false);
    var s0, ms0 := Overshoot1(c);
    var s1, ms1 := Overshoot2(c, s0, ms0);
    moves := ms1 + [Move(2, "", "")];
    RunSnoc(c, ms1, Move(2, "", ""));
  }

  lemma Overshoot1(c: Config) returns (s: State, moves: seq<Move>)
    requires c == Config(3, 1, 1, false)
    ensures Run(c, moves) == s
    ensures s == State(2, map["b" := 1], [0, 0], map[0 := Found("a", 0), 1 := Found("b", 1)])
  {
    hide Run;
    NoMoves(c);
    RunSnoc(c, [], Move(0, "a", ""));
    RunSnoc(c, [] + [Move(0, "a", "")], Move(0, "", ""));
    var s2 := State(1, map["a" := 0], [0], map[0 := Found("a", 0)]);
    var m2 := [] + [Move(0, "a", "")] + [Move(0, "", "")];
    assert Run(c, m2) == s2;
    RunSnoc(c, m2, Move(1, "b", ""));
    var s3 := State(2, map["a" := 0], [0], map[0 := Found("a", 0), 1 := Entered("b")]);
    assert Run(c, m2 + [Move(1, "b", "")]) == s3;
    RunSnoc(c, m2 + [Move(1, "b", "")], Move(1, "", "a"));
    assert Evicted(c, s3, "a") == map[];
    moves := m2 + [Move(1, "b", "")] + [Move(1, "", "a")];
    s := Run(c, moves);
  }

  lemma NoMoves(c: Config)
    ensures Run(c, []) == START
  {
  }

  lemma Overshoot2(c: Config, s: State, before: seq<Move>) returns (t: State, moves: seq<Move>)
    requires c == Config(3, 1, 1, false) && Run(c, before) == s
    requires s == State(2, map["b" := 1], [0, 0], map[0 := Found("a", 0), 1 := Found("b", 1)])
    ensures Run(c, moves) == t && At(t, 0) == Holding("a", Some(0)) && At(t, 2) == Found("a", 2)
    ensures |t.lens| == 3 && t.lens[2] == 0
  {
    hide Run;
    RunSnoc(c, before, Move(0, "", ""));
    var m1 := before + [Move(0, "", "")];
    RunSnoc(c, m1, Move(2, "a", ""));
    var s2 := State(3, map["b" := 1], [1, 0], map[0 := Holding("a", Some(0)), 1 := Found("b", 1), 2 := Entered("a")]);
    assert Run(c, m1 + [Move(2, "a", "")]) == s2;
    RunSnoc(c, m1 + [Move(2, "a", "")], Move(2, "", "b"));
    assert Evicted(c, s2, "b") == map[];
    moves := m1 + [Move(2, "a", "")] + [Move(2, "", "b")];
    t := Run(c, moves);
  }

  // ----- requests get in while there is room

  function Alone(c: Config, s: State, r: nat, ns: string, victim: string, n: nat): State {
    if n == 0 then s else Step(c, Alone(c, s, r, ns, victim, n - 1), r, ns, victim)
  }

  /** A request that finds room in the global semaphore and in that of its namespace, or room in the map for one, gets
      its slots: without a namespace at once, with one when it has looked its semaphore up and sent on it. */
  lemma RoomAdmits(c: Config, s: State, r: nat, ns: string, victim: string)
    requires At(s, r) == Idle && s.global < c.globalCap && !c.atomic
    ensures ns == "" ==> At(Alone(c, s, r, ns, victim, 1), r) == Holding("", None)
    ensures ns != "" && ns in s.sems && s.sems[ns] < |s.lens| && s.lens[s.sems[ns]] < c.cap ==>
              At(Alone(c, s, r, ns, victim, 3), r) == Holding(ns, Some(s.sems[ns]))
    ensures ns != "" && ns !in s.sems && |s.sems| < c.maxEntries && c.cap > 0 ==>
              At(Alone(c, s, r, ns, victim, 3), r) == Holding(ns, Some(|s.lens|))
    ensures ns != "" && ns !in s.sems && |s.sems| >= c.maxEntries && IsIdle(s, victim) && |s.sems| == c.maxEntries && c.cap > 0 ==>
              At(Alone(c, s, r, ns, victim, 3), r) == Holding(ns, Some(|s.lens|))
  {
    hide Evicted, IsIdle;
    var one := Alone(c, s, r, ns, victim, 1);
    assert one == Step(c, s, r, ns, victim) by { assert Alone(c, s, r, ns, victim, 0) == s; }
    if ns != "" {
      var two := Alone(c, s, r, ns, victim, 2);
      assert two == LookUp(c, one, r, ns, victim);
      if ns !in s.sems { RoomAfter(c, s, one, victim); }
      var three := Alone(c, s, r, ns, victim, 3);
      assert three == Step(c, two, r, ns, victim);
    }
  }

  lemma RoomAfter(c: Config, s: State, t: State, victim: string)
    requires t.sems == s.sems && t.lens == s.lens
    ensures |s.sems| < c.maxEntries ==> Evicted(c, t, victim) == t.sems
    ensures |s.sems| == c.maxEntries && IsIdle(s, victim) ==> |Evicted(c, t, victim)| < c.maxEntries
  {
    if |s.sems| == c.maxEntries && IsIdle(s, victim) {
      var e := t.sems - {victim};
      assert e.Keys == t.sems.Keys - {victim};
      assert |e.Keys| == |t.sems.Keys| - 1;
    }
  }

  /** And one that finds the global semaphore full stays outside. */
  lemma FullRefuses(c: Config, s: State, r: nat, ns: string, victim: string)
    requires At(s, r) == Idle && s.global >= c.globalCap
    ensures Step(c, s, r, ns, victim) == s
  {
  }
}
