/** What a scoped query can see: series of its WAFs and nothing else, whatever the query asks for
    and whatever functions, aggregations and operators compute. */
module PromIsolation {
  import opened Text
  import opened PromLexer
  import opened PromScope
  import opened PromTree
  import opened PromScopeTree
  import opened PromMeaning
  import opened PromQueries
  import opened PromUnions

  /** The selector picks series of the WAFs only. */
  ghost predicate Confined(w: World, s: Sel, ids: seq<Identity>) {
    forall x :: Picks(w, s, x) ==> exists k :: 0 <= k < |ids| && Member(x, ids[k])
  }

  ghost function ConfinedTo(w: World, ids: seq<Identity>): Sel -> bool { s => Confined(w, s, ids) }

  lemma ConfinedSel(w: World, s: Sel, ids: seq<Identity>, db: set<Series>)
    requires Confined(w, s, ids)
    ensures EvalSel(w, s, db) == EvalSel(w, s, Restrict(db, ids))
  {
    hide Picks, Member;
    assert PickSet(w, s, db) == PickSet(w, s, Restrict(db, ids));
  }

  lemma {:induction false} ConfinedArgs(w: World, a: Args, ids: seq<Identity>, db: set<Series>)
    requires EveryArg(a, ConfinedTo(w, ids))
    ensures EvalArgs(w, a, db) == EvalArgs(w, a, Restrict(db, ids))
    decreases a
  {
    hide Confined, Restrict, Eval, Every;
    match a {
      case NoArgs(_) =>
      case LastArg(_, e, _) => ConfinedQuery(w, e, ids, db);
      case MoreArgs(_, e, _, rest) =>
        ConfinedQuery(w, e, ids, db);
        ConfinedArgs(w, rest, ids, db);
    }
  }

  /** A query whose selectors pick series of the WAFs only computes the same without the others. */
  lemma {:induction false} ConfinedQuery(w: World, e: Expr, ids: seq<Identity>, db: set<Series>)
    requires Every(e, ConfinedTo(w, ids))
    ensures Eval(w, e, db) == Eval(w, e, Restrict(db, ids))
    decreases e
  {
    hide Confined, Restrict, EvalSel, EvalBinary, EvalExtras, EvalArgs, EveryArg, PrintModifier, PrintNumber;
    match e {
      case Num(_) =>
      case NumWord(_) =>
      case Str(_) =>
      case Select(s) => ConfinedSel(w, s, ids, db);
      case RangeFn(_, _, _, s, _, _) => ConfinedSel(w, s, ids, db);
      case Call(_, _, a) => ConfinedArgs(w, a, ids, db);
      case Aggregate(_, _, _, a) => ConfinedArgs(w, a, ids, db);
      case AggregateBy(_, _, a, _) => ConfinedArgs(w, a, ids, db);
      case Paren(_, e1, _) => ConfinedQuery(w, e1, ids, db);
      case Subquery(e1, _, _) => ConfinedQuery(w, e1, ids, db);
      case Unary(_, _, e1) => ConfinedQuery(w, e1, ids, db);
      case Binary(l, _, _, _, _, r) =>
        ConfinedQuery(w, l, ids, db);
        ConfinedQuery(w, r, ids, db);
    }
  }

  // ----- every selector of a scoped query

  lemma NarrowConfined(w: World, s: Sel, ids: seq<Identity>, k: nat)
    requires k < |ids| && Readable(w, ids[k])
    ensures Confined(w, Narrow(s, ids[k]), ids)
  {
    hide Narrow, Readable, Member, Others, MatchersOf, Picks;
    forall x | Picks(w, Narrow(s, ids[k]), x) ensures Member(x, ids[k]) { NarrowPicks(w, s, ids[k], x); }
  }

  lemma {:induction false} OrAllEvery(e: Expr, es: seq<Expr>, p: Sel -> bool)
    requires Every(e, p) && forall k :: 0 <= k < |es| ==> Every(es[k], p)
    ensures Every(OrAll(e, es), p)
    decreases |es|
  {
    if |es| > 0 { OrAllEvery(Binary(e, " ", "or", [], " ", es[0]), es[1..], p); }
  }

  lemma UnionEvery(es: seq<Expr>, p: Sel -> bool)
    requires |es| > 0 && forall k :: 0 <= k < |es| ==> Every(es[k], p)
    ensures Every(UnionOf(es), p)
  {
    hide OrAll;
    if |es| > 1 { OrAllEvery(es[0], es[1..], p); }
  }

  lemma SelectConfined(w: World, s: Sel, ids: seq<Identity>)
    requires |ids| > 0 && ReadsQuoted(w) && ScopeSel(s, ids).Ok?
    ensures Every(UnionOf(Selects(ScopeSel(s, ids).value)), ConfinedTo(w, ids))
  {
    hide Confined, Narrow, NarrowAll, Wanted;
    var ss := ScopeSel(s, ids).value;
    NarrowAllIs(s, ids);
    ReadableAll(w, ids);
    forall k | 0 <= k < |ss| ensures Every(Selects(ss)[k], ConfinedTo(w, ids)) {
      SelectsAt(ss, k);
      NarrowConfined(w, s, ids, k);
    }
    UnionEvery(Selects(ss), ConfinedTo(w, ids));
  }

  lemma RangeFnConfined(w: World, e: Expr, ids: seq<Identity>)
    requires |ids| > 0 && ReadsQuoted(w) && e.RangeFn? && Scope(e, ids).Ok?
    ensures Every(Scope(e, ids).value, ConfinedTo(w, ids))
  {
    hide Confined, Narrow, NarrowAll, Wanted, Tight;
    var s := Tight(e.arg);
    var ss := ScopeSel(s, ids).value;
    var es := RangeFns(e.fn, ss, e.extras, e.g3);
    NarrowAllIs(s, ids);
    ReadableAll(w, ids);
    forall k | 0 <= k < |ss| ensures Every(es[k], ConfinedTo(w, ids)) {
      RangeFnsAt(e.fn, ss, e.extras, e.g3, k);
      NarrowConfined(w, s, ids, k);
    }
    UnionEvery(es, ConfinedTo(w, ids));
  }

  lemma {:induction false} ScopeArgsConfined(w: World, a: Args, ids: seq<Identity>)
    requires |ids| > 0 && ReadsQuoted(w) && ScopeArgs(a, ids).Ok?
    ensures EveryArg(ScopeArgs(a, ids).value, ConfinedTo(w, ids))
    decreases a
  {
    hide Confined, ReadsQuoted, Scope, Every;
    match a {
      case NoArgs(_) =>
      case LastArg(_, e, _) => ScopeConfined(w, e, ids);
      case MoreArgs(_, e, _, rest) =>
        ScopeConfined(w, e, ids);
        ScopeArgsConfined(w, rest, ids);
    }
  }

  lemma {:induction false} ScopeConfined(w: World, e: Expr, ids: seq<Identity>)
    requires |ids| > 0 && ReadsQuoted(w) && Scope(e, ids).Ok?
    ensures Every(Scope(e, ids).value, ConfinedTo(w, ids))
    decreases e
  {
    hide Confined, ReadsQuoted, ScopeSel, UnionOf, ScopeArgs, EveryArg, RangeFns, Selects;
    match e {
      case Num(_) =>
      case NumWord(_) =>
      case Str(_) =>
      case Select(s) => SelectConfined(w, s, ids);
      case RangeFn(_, _, _, _, _, _) => RangeFnConfined(w, e, ids);
      case Call(_, _, a) => ScopeArgsConfined(w, a, ids);
      case Aggregate(_, _, _, a) => ScopeArgsConfined(w, a, ids);
      case AggregateBy(_, _, a, _) => ScopeArgsConfined(w, a, ids);
      case Paren(_, e1, _) => ScopeConfined(w, e1, ids);
      case Subquery(e1, _, _) => ScopeConfined(w, e1, ids);
      case Unary(_, _, e1) => ScopeConfined(w, e1, ids);
      case Binary(l, _, _, _, _, r) =>
        ScopeConfined(w, l, ids);
        ScopeConfined(w, r, ids);
    }
  }

  /** Whatever was asked, what a scoped query computes does not depend on series of other WAFs. */
  lemma SeesOnlyItsWafs(w: World, e: Expr, ids: seq<Identity>, db: set<Series>)
    requires |ids| > 0 && ReadsQuoted(w) && Scope(e, ids).Ok?
    ensures Eval(w, Scope(e, ids).value, db) == Eval(w, Scope(e, ids).value, Restrict(db, ids))
  {
    hide Scope, Every, Eval, Restrict, ReadsQuoted, Confined;
    ScopeConfined(w, e, ids);
    ConfinedQuery(w, Scope(e, ids).value, ids, db);
  }
}
