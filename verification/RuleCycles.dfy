/** Where the recursion of the resolver ends: exactly where no RuleSet that the owner reaches leads
    back to itself. */
module RuleCycles {
  import opened Text
  import opened RuleRefs
  import opened RuleReach

  /** A RuleSet whose references are followed. */
  predicate Opens(w: World, a: Id) { IsRuleSet(a) && w.ruleSets(a).Some? }

  /** No RuleSet that the owner reaches leads back to itself. */
  ghost predicate NoCycle(w: World, owner: Owner, refs: seq<Ref>) {
    forall a :: Opens(w, a) && Reaches(w, owner, refs, a) ==> !LeadsTo(w, a, a)
  }

  /** Following every reference takes calls at most `d` deep. */
  ghost predicate Ends(w: World, owner: Owner, refs: seq<Ref>, d: nat)
    decreases d
  {
    forall b :: Opens(w, b) && Yields(w, owner, refs, b) ==>
      d > 0 && Ends(w, OwnerOf(b, w.ruleSets(b).value), w.ruleSets(b).value.refs, d - 1)
  }

  ghost predicate EndsAt(w: World, a: Id, d: nat)
    requires Opens(w, a)
  {
    Ends(w, OwnerOf(a, w.ruleSets(a).value), w.ruleSets(a).value.refs, d)
  }

  // ----- a recursion that ends meets no cycle

  lemma PathTo(w: World, owner: Owner, refs: seq<Ref>, x: Id) returns (p: seq<Id>)
    requires Reaches(w, owner, refs, x)
    ensures p != [] && Path(w, owner, refs, p) && p[|p| - 1] == x
  {
    p :| Path(w, owner, refs, p) && p[|p| - 1] == x;
  }

  lemma {:induction false} EndsAlong(w: World, owner: Owner, refs: seq<Ref>, d: nat, p: seq<Id>)
    requires Ends(w, owner, refs, d) && Path(w, owner, refs, p) && Opens(w, p[|p| - 1])
    ensures d > 0 && EndsAt(w, p[|p| - 1], d - 1)
    decreases d
  {
    hide Yields;
    var a := p[0];
    if |p| > 1 {
      assert Ends(w, OwnerOf(a, w.ruleSets(a).value), w.ruleSets(a).value.refs, d - 1);
      EndsAlong(w, OwnerOf(a, w.ruleSets(a).value), w.ruleSets(a).value.refs, d - 1, p[1..]);
      EndsMore(w, OwnerOf(p[|p| - 1], w.ruleSets(p[|p| - 1]).value), w.ruleSets(p[|p| - 1]).value.refs, d - 2);
    }
  }

  lemma {:induction false} EndsMore(w: World, owner: Owner, refs: seq<Ref>, d: nat)
    requires Ends(w, owner, refs, d)
    ensures Ends(w, owner, refs, d + 1)
    decreases d
  {
    hide Yields;
    forall b | Opens(w, b) && Yields(w, owner, refs, b)
      ensures Ends(w, OwnerOf(b, w.ruleSets(b).value), w.ruleSets(b).value.refs, d)
    {
      EndsMore(w, OwnerOf(b, w.ruleSets(b).value), w.ruleSets(b).value.refs, d - 1);
    }
  }

  lemma {:induction false} NeverOnCycle(w: World, a: Id, d: nat)
    requires Opens(w, a) && LeadsTo(w, a, a)
    ensures !EndsAt(w, a, d)
  {
    hide Ends, Path, Reaches;
    if EndsAt(w, a, d) {
      var p := PathTo(w, OwnerOf(a, w.ruleSets(a).value), w.ruleSets(a).value.refs, a);
      EndsAlong(w, OwnerOf(a, w.ruleSets(a).value), w.ruleSets(a).value.refs, d, p);
      NeverOnCycle(w, a, d - 1);
    }
  }

  // ----- without a cycle it ends

  lemma {:induction false} ReachesOn(w: World, owner: Owner, refs: seq<Ref>, p: seq<Id>, x: Id)
    requires Path(w, owner, refs, p) && Opens(w, p[|p| - 1]) && LeadsTo(w, p[|p| - 1], x)
    ensures Reaches(w, owner, refs, x)
    decreases |p|
  {
    hide Yields, Reaches;
    if |p| > 1 {
      ReachesOn(w, OwnerOf(p[0], w.ruleSets(p[0]).value), w.ruleSets(p[0]).value.refs, p[1..], x);
    }
    ReachesThrough(w, owner, refs, p[0], x);
  }

  lemma LeadsOn(w: World, owner: Owner, refs: seq<Ref>, a: Id, x: Id)
    requires Opens(w, a) && Reaches(w, owner, refs, a) && LeadsTo(w, a, x)
    ensures Reaches(w, owner, refs, x)
  {
    hide Path, Reaches;
    var p := PathTo(w, owner, refs, a);
    ReachesOn(w, owner, refs, p, x);
  }

  /** The RuleSets of `all` that `a` leads to. */
  ghost function Led(w: World, all: set<Id>, a: Id): set<Id>
    requires Opens(w, a)
  {
    set x | x in all && LeadsTo(w, a, x)
  }

  lemma LedShrinks(w: World, all: set<Id>, a: Id, b: Id)
    requires Opens(w, a) && Opens(w, b) && b in all && LeadsTo(w, a, b) && !LeadsTo(w, b, b)
    ensures |Led(w, all, b)| < |Led(w, all, a)|
  {
    hide Reaches;
    forall x | x in Led(w, all, b) ensures x in Led(w, all, a) {
      LeadsOn(w, OwnerOf(a, w.ruleSets(a).value), w.ruleSets(a).value.refs, b, x);
    }
    assert b in Led(w, all, a) && b !in Led(w, all, b);
    Smaller(Led(w, all, b), Led(w, all, a));
  }

  lemma {:induction false} Smaller<T>(a: set<T>, b: set<T>)
    requires a < b
    ensures |a| < |b|
  {
    if a != {} {
      var x :| x in a;
      Smaller(a - {x}, b - {x});
    }
  }

  /** Every RuleSet the owner reaches is in `all`: there are finitely many. */
  ghost predicate Covers(w: World, owner: Owner, refs: seq<Ref>, all: set<Id>) {
    forall a :: IsRuleSet(a) && Reaches(w, owner, refs, a) ==> a in all
  }

  /** The rank of a RuleSet: how many it leads to; none if the owner does not reach it. */
  ghost function RankOf(w: World, owner: Owner, refs: seq<Ref>, all: set<Id>): Id -> int {
    a => if !IsRuleSet(a) || !Reaches(w, owner, refs, a) then -1 else if Opens(w, a) then |Led(w, all, a)| else 0
  }

  lemma RankFalls(w: World, owner: Owner, refs: seq<Ref>, all: set<Id>, a: Id, b: Id)
    requires NoCycle(w, owner, refs) && Covers(w, owner, refs, all)
    requires Opens(w, a) && Reaches(w, owner, refs, a)
    requires Nests(w, OwnerOf(a, w.ruleSets(a).value), w.ruleSets(a).value.refs, b)
    ensures var rank := RankOf(w, owner, refs, all); 0 <= rank(b) < rank(a)
  {
    hide Reaches, Yields;
    ReachesNow(w, OwnerOf(a, w.ruleSets(a).value), w.ruleSets(a).value.refs, b);
    LeadsOn(w, owner, refs, a, b);
    if Opens(w, b) { LedShrinks(w, all, a, b); } else { assert b in Led(w, all, a); }
  }

  /** Without a cycle in reach there is a ranking, so the resolution can run. */
  lemma Ranked(w: World, owner: Owner, refs: seq<Ref>, all: set<Id>) returns (rank: Id -> int, h: nat)
    requires NoCycle(w, owner, refs) && Covers(w, owner, refs, all)
    ensures Acyclic(w, rank) && Below(w, rank, owner, refs, h)
  {
    hide Reaches, Yields, NoCycle;
    rank, h := RankOf(w, owner, refs, all), |all| + 1;
    forall a, b | rank(a) >= 0 && w.ruleSets(a).Some? && Nests(w, OwnerOf(a, w.ruleSets(a).value), w.ruleSets(a).value.refs, b)
      ensures 0 <= rank(b) < rank(a)
    {
      RankFalls(w, owner, refs, all, a, b);
    }
    forall b | Nests(w, owner, refs, b) ensures 0 <= rank(b) < h {
      ReachesNow(w, owner, refs, b);
      if Opens(w, b) { Fewer(Led(w, all, b), all); }
    }
  }

  lemma {:induction false} RankedEnds(w: World, rank: Id -> int, owner: Owner, refs: seq<Ref>, h: nat)
    requires Acyclic(w, rank) && Below(w, rank, owner, refs, h)
    ensures Ends(w, owner, refs, h)
    decreases h
  {
    hide Acyclic, Yields;
    forall b | Opens(w, b) && Yields(w, owner, refs, b)
      ensures h > 0 && Ends(w, OwnerOf(b, w.ruleSets(b).value), w.ruleSets(b).value.refs, h - 1)
    {
      assert Nests(w, owner, refs, b);
      NestedBelow(w, rank, b);
      BelowMore(w, rank, OwnerOf(b, w.ruleSets(b).value), w.ruleSets(b).value.refs, rank(b), h - 1);
      RankedEnds(w, rank, OwnerOf(b, w.ruleSets(b).value), w.ruleSets(b).value.refs, h - 1);
    }
  }

  lemma BelowMore(w: World, rank: Id -> int, owner: Owner, refs: seq<Ref>, g: nat, h: nat)
    requires Below(w, rank, owner, refs, g) && g <= h
    ensures Below(w, rank, owner, refs, h)
  {
    hide Nests;
  }

  // ----- the exact condition

  ghost predicate Ranks(w: World, owner: Owner, refs: seq<Ref>, rank: Id -> int, h: nat) {
    Acyclic(w, rank) && Below(w, rank, owner, refs, h)
  }

  /** In a finite cluster the recursion that follows every reference ends, and the resolution can
      be ranked, exactly when no RuleSet in reach leads back to itself. */
  lemma {:induction false} EndsExactly(w: World, owner: Owner, refs: seq<Ref>, all: set<Id>)
    requires Covers(w, owner, refs, all)
    ensures (exists d: nat :: Ends(w, owner, refs, d)) <==> NoCycle(w, owner, refs)
    ensures (exists rank, h :: Ranks(w, owner, refs, rank, h)) <==> NoCycle(w, owner, refs)
  {
    hide Ends, Path, Reaches, Covers, Acyclic, Below;
    if NoCycle(w, owner, refs) {
      var rank, h := Ranked(w, owner, refs, all);
      assert Ranks(w, owner, refs, rank, h);
      RankedEnds(w, rank, owner, refs, h);
    } else {
      var a :| Opens(w, a) && Reaches(w, owner, refs, a) && LeadsTo(w, a, a);
      forall d: nat ensures !Ends(w, owner, refs, d) {
        if Ends(w, owner, refs, d) {
          var p := PathTo(w, owner, refs, a);
          EndsAlong(w, owner, refs, d, p);
          NeverOnCycle(w, a, d - 1);
        }
      }
      forall rank: Id -> int, h: nat ensures !Ranks(w, owner, refs, rank, h) {
        if Ranks(w, owner, refs, rank, h) { RankedEnds(w, rank, owner, refs, h); }
      }
    }
  }
}
