/** Queries scoped to several WAFs: the or-unions and the distributed range functions. */
module PromUnions {
  import opened Text
  import opened PromLexer
  import opened PromScope
  import opened PromTree
  import opened PromScopeTree
  import opened PromMeaning
  import opened PromQueries
  import opened PromRanges

  // ----- or-unions of per-WAF vectors

  /** Per-WAF vectors that agree wherever two of them carry the same signature. */
  ghost predicate Coherent(f: Identity -> set<Series>) {
    forall i, j, x, y :: x in f(i) && y in f(j) && Signature(x) == Signature(y) ==> y in f(i)
  }

  ghost function Gather(f: Identity -> set<Series>, ids: seq<Identity>): set<Series> {
    if |ids| == 0 then {} else f(ids[0]) + Gather(f, ids[1..])
  }

  lemma {:induction false} GatherIs(f: Identity -> set<Series>, ids: seq<Identity>, x: Series)
    ensures x in Gather(f, ids) <==> exists k :: 0 <= k < |ids| && x in f(ids[k])
  {
    if |ids| > 0 {
      var rest := ids[1..];
      GatherIs(f, rest, x);
      assert forall k :: 0 <= k < |rest| ==> rest[k] == ids[k + 1];
      if k :| 0 <= k < |ids| && x in f(ids[k]) {
        if k > 0 { assert rest[k - 1] == ids[k]; }
      }
    }
  }

  ghost function OrOver(f: Identity -> set<Series>, acc: set<Series>, ids: seq<Identity>): set<Series>
    decreases |ids|
  {
    if |ids| == 0 then acc else OrOver(f, OrUnion(acc, f(ids[0])), ids[1..])
  }

  lemma OrIsUnion(f: Identity -> set<Series>, done: seq<Identity>, id: Identity)
    requires Coherent(f)
    ensures OrUnion(Gather(f, done), f(id)) == Gather(f, done + [id])
  {
    hide Gather;
    var a := Gather(f, done);
    forall y ensures y in OrUnion(a, f(id)) <==> y in Gather(f, done + [id]) {
      GatherIs(f, done, y);
      GatherIs(f, done + [id], y);
      assert y in f(id) ==> (done + [id])[|done|] == id;
      assert forall k :: 0 <= k < |done| ==> (done + [id])[k] == done[k];
      if y in f(id) && Signed(a, Signature(y)) {
        var x :| x in a && Signature(x) == Signature(y);
        GatherIs(f, done, x);
        var k :| 0 <= k < |done| && x in f(done[k]);
        assert y in f(done[k]);
      }
    }
  }

  lemma {:induction false} OrOverGathers(f: Identity -> set<Series>, done: seq<Identity>, ids: seq<Identity>)
    requires Coherent(f)
    ensures OrOver(f, Gather(f, done), ids) == Gather(f, done + ids)
    decreases |ids|
  {
    hide Coherent, Gather, OrUnion;
    if |ids| == 0 {
      assert done + ids == done;
    } else {
      OrIsUnion(f, done, ids[0]);
      OrOverGathers(f, done + [ids[0]], ids[1..]);
      assert (done + [ids[0]]) + ids[1..] == done + ids;
    }
  }

  /** One expression per WAF, each computing that WAF's vector. */
  ghost predicate Computes(w: World, es: seq<Expr>, db: set<Series>, f: Identity -> set<Series>, ids: seq<Identity>) {
    |es| == |ids| && forall k :: 0 <= k < |es| ==> Eval(w, es[k], db) == Vector(f(ids[k]))
  }

  lemma {:induction false} EvalOrAll(w: World, e: Expr, acc: set<Series>, es: seq<Expr>, db: set<Series>,
                                     f: Identity -> set<Series>, ids: seq<Identity>)
    requires Eval(w, e, db) == Vector(acc) && Computes(w, es, db, f, ids)
    ensures Eval(w, OrAll(e, es), db) == Vector(OrOver(f, acc, ids))
    decreases |es|
  {
    hide OrUnion;
    if |es| > 0 {
      var b := Binary(e, " ", "or", [], " ", es[0]);
      OrWord();
      assert Eval(w, b, db) == Vector(OrUnion(acc, f(ids[0])));
      assert forall k :: 0 <= k < |es[1..]| ==> es[1..][k] == es[k + 1] && ids[1..][k] == ids[k + 1];
      EvalOrAll(w, b, OrUnion(acc, f(ids[0])), es[1..], db, f, ids[1..]);
    }
  }

  lemma OrWord()
    ensures Lower("or") == "or"
  {
  }

  lemma GatherOne(f: Identity -> set<Series>, id: Identity)
    ensures Gather(f, [id]) == f(id)
  {
    assert [id][1..] == [];
    assert Gather(f, []) == {};
  }

  lemma EvalUnionOf(w: World, es: seq<Expr>, db: set<Series>)
    requires |es| > 0
    ensures Eval(w, UnionOf(es), db) == Eval(w, OrAll(es[0], es[1..]), db)
  {
    if |es| == 1 { assert es[1..] == []; }
  }

  /** The union the rewriter builds computes the union of the WAFs' vectors. */
  lemma EvalUnion(w: World, es: seq<Expr>, db: set<Series>, f: Identity -> set<Series>, ids: seq<Identity>)
    requires |ids| > 0 && Coherent(f) && Computes(w, es, db, f, ids)
    ensures Eval(w, UnionOf(es), db) == Vector(Gather(f, ids))
  {
    hide Coherent, OrAll, OrOver, Gather, Eval, UnionOf;
    GatherOne(f, ids[0]);
    OrOverGathers(f, [ids[0]], ids[1..]);
    assert [ids[0]] + ids[1..] == ids;
    assert forall k :: 0 <= k < |es[1..]| ==> es[1..][k] == es[k + 1] && ids[1..][k] == ids[k + 1];
    EvalUnionOf(w, es, db);
    EvalOrAll(w, es[0], f(ids[0]), es[1..], db, f, ids[1..]);
  }

  // ----- selectors

  /** PromQL reads back every value that Go's quoting wrote. */
  ghost predicate ReadsQuoted(w: World) { forall s: string :: w.unquote(Escape(s)) == s }

  /** The selector's identity matchers, if it has any, ask for what all the WAFs have. */
  ghost predicate OwnAll(w: World, s: Sel, ids: seq<Identity>) {
    forall k :: 0 <= k < |ids| ==> OwnIdentity(w, MatchersOf(s), ids[k])
  }

  ghost function Part(w: World, s: Sel, db: set<Series>): Identity -> set<Series> {
    id => PickSet(w, Narrow(s, id), db)
  }

  lemma {:induction false} NarrowAllIs(s: Sel, ids: seq<Identity>)
    requires NarrowAll(s, ids).Ok?
    ensures |NarrowAll(s, ids).value| == |ids|
    ensures forall k :: 0 <= k < |ids| ==> NarrowAll(s, ids).value[k] == Narrow(s, ids[k])
  {
    hide Narrow;
    if |ids| > 0 { NarrowAllIs(s, ids[1..]); }
  }

  lemma PartIs(w: World, s: Sel, db: set<Series>, id: Identity, x: Series)
    requires Readable(w, id)
    ensures x in Part(w, s, db)(id) <==> x in db && Member(x, id) && Remains(w, s, x)
  {
    hide Narrow, Others, MatchersOf, Readable, Member;
    NarrowPicks(w, s, id, x);
  }

  /** A WAF whose series the kept matchers pick from the database. */
  ghost predicate Picked(w: World, s: Sel, db: set<Series>, id: Identity) {
    exists x :: x in db && Member(x, id) && Remains(w, s, x)
  }

  /** The parts together are the original's pick from the WAFs' series if and only if the dropped
      identity matchers asked for every WAF that has a series the kept ones pick. */
  lemma PartsExact(w: World, s: Sel, db: set<Series>, ids: seq<Identity>)
    requires Equalities(MatchersOf(s)) && forall k :: 0 <= k < |ids| ==> Readable(w, ids[k])
    ensures Gather(Part(w, s, db), ids) == PickSet(w, s, Restrict(db, ids)) <==>
            forall k :: 0 <= k < |ids| && Picked(w, s, db, ids[k]) ==> OwnIdentity(w, MatchersOf(s), ids[k])
  {
    hide Gather, Picks, Member, Remains, Readable, OwnIdentity, Equalities, Part, MatchersOf;
    var f := Part(w, s, db);
    forall x ensures x in Gather(f, ids) <==> x in db && Remains(w, s, x) && exists k :: 0 <= k < |ids| && Member(x, ids[k]) {
      GatherIs(f, ids, x);
      forall k | 0 <= k < |ids| { PartIs(w, s, db, ids[k], x); }
    }
    forall x, k | 0 <= k < |ids| && Member(x, ids[k])
      ensures Picks(w, s, x) <==> Remains(w, s, x) && OwnIdentity(w, MatchersOf(s), ids[k])
    {
      MemberPicked(w, s, ids[k], x);
    }
    if Gather(f, ids) == PickSet(w, s, Restrict(db, ids)) {
      forall k | 0 <= k < |ids| && Picked(w, s, db, ids[k]) ensures OwnIdentity(w, MatchersOf(s), ids[k]) {
        var x :| x in db && Member(x, ids[k]) && Remains(w, s, x);
        assert x in Gather(f, ids);
      }
    }
  }

  lemma ScopedEqualities(s: Sel, ids: seq<Identity>)
    requires ScopeSel(s, ids).Ok?
    ensures Equalities(MatchersOf(s))
  {
    hide MatchersOf, NarrowAll, Wanted;
    WantedEqualities(MatchersOf(s), Identity("", ""));
  }

  /** The parts of an accepted selector that asks for all the WAFs are the original's pick. */
  lemma PartsTogether(w: World, s: Sel, db: set<Series>, ids: seq<Identity>)
    requires ScopeSel(s, ids).Ok? && OwnAll(w, s, ids) && forall k :: 0 <= k < |ids| ==> Readable(w, ids[k])
    ensures Gather(Part(w, s, db), ids) == PickSet(w, s, Restrict(db, ids))
  {
    hide Gather, Readable, OwnIdentity, Equalities, Part, MatchersOf, ScopeSel, Picked, PickSet, Restrict;
    ScopedEqualities(s, ids);
    PartsExact(w, s, db, ids);
  }

  /** Series of different WAFs never share a signature. */
  lemma MemberOne(y: Series, i: Identity, z: Series, j: Identity)
    requires Member(y, i) && Member(z, j) && Signature(y) == Signature(z)
    ensures i == j
  {
    assert forall n :: n != "__name__" ==> (n in y.labels <==> n in Signature(y)) && (n in z.labels <==> n in Signature(z));
    assert Label(y, "waf_namespace") == Label(z, "waf_namespace");
    assert Label(y, "waf_name") == Label(z, "waf_name");
  }

  lemma PartsCoherent(w: World, s: Sel, db: set<Series>)
    requires ReadsQuoted(w)
    ensures Coherent(Part(w, s, db))
  {
    hide Member, Remains, Part, Signature;
    var f := Part(w, s, db);
    forall i, j, x, y | x in f(i) && y in f(j) && Signature(x) == Signature(y) ensures y in f(i) {
      PartIs(w, s, db, i, x);
      PartIs(w, s, db, j, y);
      MemberOne(x, i, y, j);
    }
  }

  lemma SelectSeveral(w: World, s: Sel, db: set<Series>, ids: seq<Identity>)
    requires |ids| > 0 && ScopeSel(s, ids).Ok? && s.range.None? && OwnAll(w, s, ids) && ReadsQuoted(w)
    ensures Eval(w, UnionOf(Selects(ScopeSel(s, ids).value)), db) == EvalSel(w, s, Restrict(db, ids))
  {
    hide Narrow, PickSet, OwnAll, Wanted, NarrowAll, Coherent, Gather, UnionOf;
    var ss, f := ScopeSel(s, ids).value, Part(w, s, db);
    ReadableAll(w, ids);
    NarrowAllIs(s, ids);
    PartsCoherent(w, s, db);
    PartsTogether(w, s, db, ids);
    forall k | 0 <= k < |ids| ensures Eval(w, Selects(ss)[k], db) == Vector(f(ids[k])) {
      SelectsAt(ss, k);
      NarrowRange(s, ids[k]);
    }
    EvalUnion(w, Selects(ss), db, f, ids);
  }

  lemma NarrowRange(s: Sel, id: Identity)
    ensures Narrow(s, id).range == s.range
  {
  }

  // ----- range functions

  /** What a range function with its literal arguments makes of a range of series. */
  ghost function Ranged(w: World, fn: string, range: string, xs: seq<Extra>, series: set<Series>): Value {
    w.apply(fn, [Matrix(series, range)] + EvalExtras(xs))
  }

  /** The function works series by series and leaves the identity labels alone. */
  ghost predicate PerSeries(w: World, fn: string, range: string, xs: seq<Extra>) {
    && (forall ss: set<Series> :: Ranged(w, fn, range, xs, ss).Vector?)
    && (forall ss: set<Series>, y :: y in Ranged(w, fn, range, xs, ss).samples <==>
                                     exists x :: x in ss && y in Ranged(w, fn, range, xs, {x}).samples)
    && (forall x, y :: y in Ranged(w, fn, range, xs, {x}).samples ==>
                       Label(y, "waf_namespace") == Label(x, "waf_namespace") && Label(y, "waf_name") == Label(x, "waf_name"))
  }

  ghost predicate Spreadable(w: World, e: Expr) {
    e.RangeFn? && e.arg.range.Some? && PerSeries(w, e.fn, e.arg.range.value, e.extras)
  }

  ghost function RangedPart(w: World, e: Expr, db: set<Series>): Identity -> set<Series>
    requires Spreadable(w, e)
  {
    id => Ranged(w, e.fn, e.arg.range.value, e.extras, PickSet(w, Narrow(Tight(e.arg), id), db)).samples
  }

  lemma RangedMember(w: World, e: Expr, db: set<Series>, id: Identity, y: Series)
    requires Spreadable(w, e) && Readable(w, id) && y in RangedPart(w, e, db)(id)
    ensures Member(y, id)
  {
    hide Ranged, Narrow, Readable, Tight;
    var part := PickSet(w, Narrow(Tight(e.arg), id), db);
    var x :| x in part && y in Ranged(w, e.fn, e.arg.range.value, e.extras, {x}).samples;
    NarrowPicks(w, Tight(e.arg), id, x);
  }

  /** Vectors of different WAFs never share a signature. */
  lemma RangedCoherent(w: World, e: Expr, db: set<Series>)
    requires Spreadable(w, e) && ReadsQuoted(w)
    ensures Coherent(RangedPart(w, e, db))
  {
    hide Spreadable, Member, Signature;
    var f := RangedPart(w, e, db);
    forall i, j, x, y | x in f(i) && y in f(j) && Signature(x) == Signature(y) ensures y in f(i) {
      RangedMember(w, e, db, i, x);
      RangedMember(w, e, db, j, y);
      MemberOne(x, i, y, j);
    }
  }

  /** Applying the function to each WAF's series and uniting is applying it to all of them. */
  lemma RangedTogether(w: World, e: Expr, db: set<Series>, ids: seq<Identity>)
    requires Spreadable(w, e)
    ensures var f, part := RangedPart(w, e, db), Part(w, Tight(e.arg), db);
            Vector(Gather(f, ids)) == Ranged(w, e.fn, e.arg.range.value, e.extras, Gather(part, ids))
  {
    hide Ranged, Gather, PickSet, Narrow, Tight;
    var f, part := RangedPart(w, e, db), Part(w, Tight(e.arg), db);
    var all := Ranged(w, e.fn, e.arg.range.value, e.extras, Gather(part, ids));
    forall y ensures y in Gather(f, ids) <==> y in all.samples {
      GatherIs(f, ids, y);
      if y in all.samples {
        var x :| x in Gather(part, ids) && y in Ranged(w, e.fn, e.arg.range.value, e.extras, {x}).samples;
        GatherIs(part, ids, x);
        var k :| 0 <= k < |ids| && x in part(ids[k]);
        assert y in f(ids[k]);
      }
      if y in Gather(f, ids) {
        var k :| 0 <= k < |ids| && y in f(ids[k]);
        var x :| x in part(ids[k]) && y in Ranged(w, e.fn, e.arg.range.value, e.extras, {x}).samples;
        GatherIs(part, ids, x);
      }
    }
  }

  lemma RangeFnEval(w: World, fn: string, s: Sel, xs: seq<Extra>, g1: string, g2: string, g3: string, db: set<Series>)
    requires s.range.Some?
    ensures Eval(w, RangeFn(fn, g1, g2, s, xs, g3), db) == Ranged(w, fn, s.range.value, xs, PickSet(w, s, db))
  {
    hide EvalExtras, PickSet;
  }

  lemma ReadableAll(w: World, ids: seq<Identity>)
    requires ReadsQuoted(w)
    ensures forall k :: 0 <= k < |ids| ==> Readable(w, ids[k])
  {
  }

  lemma RangedVector(w: World, e: Expr, db: set<Series>, id: Identity)
    requires Spreadable(w, e)
    ensures Ranged(w, e.fn, e.arg.range.value, e.extras, PickSet(w, Narrow(Tight(e.arg), id), db)) == Vector(RangedPart(w, e, db)(id))
  {
    hide Ranged, Narrow, Tight, PickSet;
  }

  /** A range function, distributed over the WAFs, computes what it computes on all their series. */
  lemma RangeFnSeveral(w: World, e: Expr, db: set<Series>, ids: seq<Identity>)
    requires |ids| > 0 && Spreadable(w, e) && OwnAll(w, e.arg, ids) && ReadsQuoted(w) && Scope(e, ids).Ok?
    ensures Eval(w, Scope(e, ids).value, db) == Eval(w, e, Restrict(db, ids))
  {
    hide Narrow, PickSet, OwnIdentity, Wanted, NarrowAll, Coherent, Gather, UnionOf, Ranged, Tight, Restrict, PerSeries, Eval,
         ReadsQuoted, RangedPart, RangeFns, Computes;
    var s := Tight(e.arg);
    var ss, f := ScopeSel(s, ids).value, RangedPart(w, e, db);
    var es := RangeFns(e.fn, ss, e.extras, e.g3);
    NarrowAllIs(s, ids);
    TightPicks(w, e.arg, Restrict(db, ids));
    ReadableAll(w, ids);
    PartsTogether(w, s, db, ids);
    RangedCoherent(w, e, db);
    RangedTogether(w, e, db, ids);
    forall k | 0 <= k < |ids| ensures Eval(w, es[k], db) == Vector(f(ids[k])) {
      RangeFnsAt(e.fn, ss, e.extras, e.g3, k);
      NarrowRange(s, ids[k]);
      RangeFnEval(w, e.fn, Narrow(s, ids[k]), e.extras, "", "", e.g3, db);
      RangedVector(w, e, db, ids[k]);
    }
    ComputesAll(w, es, db, f, ids);
    EvalUnion(w, es, db, f, ids);
    RangeFnEval(w, e.fn, e.arg, e.extras, e.g1, e.g2, e.g3, Restrict(db, ids));
  }

  lemma ComputesAll(w: World, es: seq<Expr>, db: set<Series>, f: Identity -> set<Series>, ids: seq<Identity>)
    requires |es| == |ids| && forall k :: 0 <= k < |ids| ==> Eval(w, es[k], db) == Vector(f(ids[k]))
    ensures Computes(w, es, db, f, ids)
  {
  }

  // ----- the theorem

  /** The queries that survive a union of WAFs: identity matchers ask for what all of them have,
      and range functions work series by series. */
  ghost predicate Spread(w: World, e: Expr, ids: seq<Identity>) {
    match e
    case Num(_) => true
    case NumWord(_) => true
    case Str(_) => true
    case Select(s) => OwnAll(w, s, ids)
    case RangeFn(_, _, _, s, _, _) => Spreadable(w, e) && OwnAll(w, s, ids)
    case Call(_, _, args) => SpreadArgs(w, args, ids)
    case Aggregate(_, _, _, args) => SpreadArgs(w, args, ids)
    case AggregateBy(_, _, args, _) => SpreadArgs(w, args, ids)
    case Paren(_, e, _) => Spread(w, e, ids)
    case Subquery(e, _, _) => Spread(w, e, ids)
    case Unary(_, _, e) => Spread(w, e, ids)
    case Binary(l, _, _, _, _, r) => Spread(w, l, ids) && Spread(w, r, ids)
  }

  ghost predicate SpreadArgs(w: World, a: Args, ids: seq<Identity>) {
    match a
    case NoArgs(_) => true
    case LastArg(_, e, _) => Spread(w, e, ids)
    case MoreArgs(_, e, _, rest) => Spread(w, e, ids) && SpreadArgs(w, rest, ids)
  }

  lemma SelectOnly(w: World, s: Sel, db: set<Series>, ids: seq<Identity>)
    requires |ids| == 1 && ReadsQuoted(w) && ScopeSel(s, ids).Ok? && OwnAll(w, s, ids)
    ensures Eval(w, UnionOf(Selects(ScopeSel(s, ids).value)), db) == EvalSel(w, s, Restrict(db, ids))
  {
    hide ReadsQuoted, Restrict, ScopeSel, EvalSel, OwnIdentity, Narrow, UnionOf, Selects;
    var id := ids[0];
    assert ids == [id];
    ReadableAll(w, ids);
    ScopeSelOne(s, id);
    SelectsOne(Narrow(s, id));
    SelectOne(w, s, id, db);
  }

  lemma {:induction false} ScopedArgsOfSeveral(w: World, a: Args, ids: seq<Identity>, db: set<Series>)
    requires |ids| > 0 && ReadsQuoted(w) && ScopeArgs(a, ids).Ok? && SpreadArgs(w, a, ids)
    requires |ids| == 1 || CoveredArgs(a)
    ensures EvalArgs(w, ScopeArgs(a, ids).value, db) == EvalArgs(w, a, Restrict(db, ids))
    decreases a
  {
    hide ReadsQuoted, Restrict;
    match a {
      case NoArgs(_) =>
      case LastArg(_, e, _) => ScopedQueryOfSeveralWafs(w, e, ids, db);
      case MoreArgs(_, e, _, rest) =>
        ScopedQueryOfSeveralWafs(w, e, ids, db);
        ScopedArgsOfSeveral(w, rest, ids, db);
    }
  }

  /** A query scoped to several WAFs computes on the whole database what the original computes
      on the series of those WAFs. */
  lemma {:induction false} ScopedQueryOfSeveralWafs(w: World, e: Expr, ids: seq<Identity>, db: set<Series>)
    requires |ids| > 0 && ReadsQuoted(w) && Scope(e, ids).Ok? && Spread(w, e, ids) && (|ids| == 1 || Covered(e))
    ensures Eval(w, Scope(e, ids).value, db) == Eval(w, e, Restrict(db, ids))
    decreases e
  {
    hide ReadsQuoted, Restrict, ScopeSel, EvalSel, EvalBinary, EvalExtras, Tight, PrintModifier, PrintNumber, OwnAll,
         Spreadable, UnionOf;
    match e {
      case Num(_) =>
      case NumWord(_) =>
      case Str(_) =>
      case Select(s) => if s.range.None? { SelectSeveral(w, s, db, ids); } else { SelectOnly(w, s, db, ids); }
      case RangeFn(_, _, _, _, _, _) => RangeFnSeveral(w, e, db, ids);
      case Call(_, _, a) => ScopedArgsOfSeveral(w, a, ids, db);
      case Aggregate(_, _, _, a) => ScopedArgsOfSeveral(w, a, ids, db);
      case AggregateBy(_, _, a, _) => ScopedArgsOfSeveral(w, a, ids, db);
      case Paren(_, e1, _) => ScopedQueryOfSeveralWafs(w, e1, ids, db);
      case Subquery(e1, _, _) => ScopedQueryOfSeveralWafs(w, e1, ids, db);
      case Unary(_, _, e1) => ScopedQueryOfSeveralWafs(w, e1, ids, db);
      case Binary(l, _, _, _, _, r) =>
        ScopedQueryOfSeveralWafs(w, l, ids, db);
        ScopedQueryOfSeveralWafs(w, r, ids, db);
    }
  }

  // ----- absence

  /** The meaning of `absent_over_time`: one sample when there is no series, none otherwise. */
  ghost predicate ReportsAbsence(w: World, e: Expr, gap: Series) {
    e.RangeFn? && e.arg.range.Some? &&
    forall ss: set<Series> :: Ranged(w, e.fn, e.arg.range.value, e.extras, ss) == Vector(if ss == {} then {gap} else {})
  }

  /** What the function reports for each WAF by itself. */
  ghost function Gaps(w: World, s: Sel, db: set<Series>, gap: Series): Identity -> set<Series> {
    id => if Picked(w, s, db, id) then {} else {gap}
  }

  lemma GapPart(w: World, e: Expr, db: set<Series>, id: Identity, gap: Series)
    requires ReportsAbsence(w, e, gap) && ReadsQuoted(w)
    ensures Ranged(w, e.fn, e.arg.range.value, e.extras, PickSet(w, Narrow(Tight(e.arg), id), db)) ==
            Vector(Gaps(w, Tight(e.arg), db, gap)(id))
  {
    hide Ranged, Tight, Remains, Member, Part;
    var s := Tight(e.arg);
    var part := Part(w, s, db)(id);
    assert part == PickSet(w, Narrow(s, id), db) by { PartValue(w, s, db, id); }
    forall x { PartIs(w, s, db, id, x); }
    if Picked(w, s, db, id) {
      var x :| x in db && Member(x, id) && Remains(w, s, x);
      assert x in part;
    }
  }

  lemma PartValue(w: World, s: Sel, db: set<Series>, id: Identity)
    ensures Part(w, s, db)(id) == PickSet(w, Narrow(s, id), db)
  {
  }

  lemma GapsCoherent(w: World, s: Sel, db: set<Series>, gap: Series)
    ensures Coherent(Gaps(w, s, db, gap))
  {
    hide Picked, Signature;
    var f := Gaps(w, s, db, gap);
    forall i, j, x, y | x in f(i) && y in f(j) && Signature(x) == Signature(y) ensures y in f(i) { }
  }

  /** Distributed over the WAFs, the function reports an absence exactly when some WAF has no
      picked series. */
  lemma DistributedAbsence(w: World, e: Expr, db: set<Series>, ids: seq<Identity>, gap: Series)
    requires ReportsAbsence(w, e, gap) && ReadsQuoted(w) && |ids| > 0 && Scope(e, ids).Ok?
    ensures Eval(w, Scope(e, ids).value, db) == Vector(Gather(Gaps(w, Tight(e.arg), db, gap), ids))
  {
    hide Narrow, PickSet, Wanted, NarrowAll, Coherent, Gather, UnionOf, Ranged, Tight, Eval, ReadsQuoted, Gaps, RangeFns, Computes;
    var s := Tight(e.arg);
    var ss, f := ScopeSel(s, ids).value, Gaps(w, s, db, gap);
    var es := RangeFns(e.fn, ss, e.extras, e.g3);
    TightPicks(w, e.arg, db);
    NarrowAllIs(s, ids);
    GapsCoherent(w, s, db, gap);
    forall k | 0 <= k < |ids| ensures Eval(w, es[k], db) == Vector(f(ids[k])) {
      RangeFnsAt(e.fn, ss, e.extras, e.g3, k);
      NarrowRange(s, ids[k]);
      RangeFnEval(w, e.fn, Narrow(s, ids[k]), e.extras, "", "", e.g3, db);
      GapPart(w, e, db, ids[k], gap);
    }
    ComputesAll(w, es, db, f, ids);
    EvalUnion(w, es, db, f, ids);
  }

  lemma GatheredGaps(w: World, s: Sel, db: set<Series>, ids: seq<Identity>, gap: Series)
    ensures Gather(Gaps(w, s, db, gap), ids) ==
            if exists k :: 0 <= k < |ids| && !Picked(w, s, db, ids[k]) then {gap} else {}
  {
    hide Gather, Picked;
    var f := Gaps(w, s, db, gap);
    forall x ensures x in Gather(f, ids) <==> x == gap && exists k :: 0 <= k < |ids| && !Picked(w, s, db, ids[k]) {
      GatherIs(f, ids, x);
    }
  }

  /** The original reports an absence exactly when no WAF has a picked series. */
  lemma OriginalAbsence(w: World, e: Expr, db: set<Series>, ids: seq<Identity>, gap: Series)
    requires ReportsAbsence(w, e, gap) && ReadsQuoted(w) && |ids| > 0 && Scope(e, ids).Ok? && OwnAll(w, e.arg, ids)
    ensures Eval(w, e, Restrict(db, ids)) ==
            Vector(if exists k :: 0 <= k < |ids| && Picked(w, Tight(e.arg), db, ids[k]) then {} else {gap})
  {
    hide Ranged, Tight, Eval, Restrict, Gather, Remains, Member, ScopeSel, OwnIdentity, Part, PickSet;
    var s := Tight(e.arg);
    RangeFnEval(w, e.fn, e.arg, e.extras, e.g1, e.g2, e.g3, Restrict(db, ids));
    TightPicks(w, e.arg, Restrict(db, ids));
    ReadableAll(w, ids);
    PartsTogether(w, s, db, ids);
    var all := Gather(Part(w, s, db), ids);
    forall x ensures x in all <==> exists k :: 0 <= k < |ids| && x in db && Member(x, ids[k]) && Remains(w, s, x) {
      GatherIs(Part(w, s, db), ids, x);
      forall k | 0 <= k < |ids| { PartIs(w, s, db, ids[k], x); }
    }
    if k :| 0 <= k < |ids| && Picked(w, s, db, ids[k]) {
      var x :| x in db && Member(x, ids[k]) && Remains(w, s, x);
      assert x in all;
    }
  }

  /** `absent_over_time` is in the table of distributed functions but does not work series by
      series: what is sent computes what was asked if and only if every WAF has a picked series or
      none has. */
  lemma AbsenceExact(w: World, e: Expr, db: set<Series>, ids: seq<Identity>, gap: Series)
    requires ReportsAbsence(w, e, gap) && ReadsQuoted(w) && |ids| > 0 && Scope(e, ids).Ok? && OwnAll(w, e.arg, ids)
    ensures Eval(w, Scope(e, ids).value, db) == Eval(w, e, Restrict(db, ids)) <==>
            || (forall k :: 0 <= k < |ids| ==> Picked(w, Tight(e.arg), db, ids[k]))
            || (forall k :: 0 <= k < |ids| ==> !Picked(w, Tight(e.arg), db, ids[k]))
  {
    hide Eval, Scope, Restrict, Ranged, OwnAll, Picked, Tight, Gather, Gaps;
    DistributedAbsence(w, e, db, ids, gap);
    OriginalAbsence(w, e, db, ids, gap);
    GatheredGaps(w, Tight(e.arg), db, ids, gap);
    assert gap in {gap} && gap !in {};
    assert Picked(w, Tight(e.arg), db, ids[0]) || !Picked(w, Tight(e.arg), db, ids[0]);
  }

  /** With a series of one of two WAFs only, an absence is reported that is none. */
  lemma AbsentDoesNotDistribute(w: World, e: Expr, i: Identity, j: Identity, x: Series, gap: Series)
    requires ReportsAbsence(w, e, gap) && ReadsQuoted(w) && Scope(e, [i, j]).Ok? && OwnAll(w, e.arg, [i, j])
    requires i != j && Remains(w, Tight(e.arg), x) && Member(x, i)
    ensures Eval(w, Scope(e, [i, j]).value, {x}) != Eval(w, e, Restrict({x}, [i, j]))
  {
    hide Eval, Scope, Restrict, Ranged, OwnAll, Remains, Tight, ReadsQuoted;
    var ids := [i, j];
    assert ids[0] == i && ids[1] == j;
    assert Picked(w, Tight(e.arg), {x}, i) && !Picked(w, Tight(e.arg), {x}, j);
    AbsenceExact(w, e, {x}, ids, gap);
  }
}
