/** Whole queries: a scoped query computes on the whole database what the original computes
    on the authorised WAFs' series alone. */
module PromQueries {
  import opened Text
  import opened PromLexer
  import opened PromScope
  import opened PromTree
  import opened PromScopeTree
  import opened PromMeaning

  // ----- meaning

  ghost function PickSet(w: World, s: Sel, db: set<Series>): set<Series> {
    set x | x in db && Picks(w, s, x)
  }

  ghost function EvalSel(w: World, s: Sel, db: set<Series>): Value {
    match s.range
    case None => Vector(PickSet(w, s, db))
    case Some(range) => Matrix(PickSet(w, s, db), range)
  }

  /** The labels by which vectors are matched: all but the metric name. */
  ghost function Signature(x: Series): map<string, string> { x.labels - {"__name__"} }

  ghost predicate Signed(a: set<Series>, labels: map<string, string>) {
    exists x :: x in a && Signature(x) == labels
  }

  /** PromQL's `or`: the left side, and what the right side adds under new signatures. */
  ghost function OrUnion(a: set<Series>, b: set<Series>): set<Series> {
    a + set y | y in b && !Signed(a, Signature(y))
  }

  ghost function EvalBinary(w: World, op: string, mods: seq<Modifier>, l: Value, r: Value): Value {
    if Lower(op) == "or" && |mods| == 0 && l.Vector? && r.Vector? then Vector(OrUnion(l.samples, r.samples))
    else w.apply(op + PrintModifiers(mods, ""), [l, r])
  }

  ghost function EvalExtras(xs: seq<Extra>): seq<Value> {
    if |xs| == 0 then [] else [Literal(PrintNumber(xs[0].num, ""))] + EvalExtras(xs[1..])
  }

  ghost function EvalArgs(w: World, a: Args, db: set<Series>): seq<Value> {
    match a
    case NoArgs(_) => []
    case LastArg(_, e, _) => [Eval(w, e, db)]
    case MoreArgs(_, e, _, rest) => [Eval(w, e, db)] + EvalArgs(w, rest, db)
  }

  ghost function Eval(w: World, e: Expr, db: set<Series>): Value {
    match e
    case Num(n) => Literal(PrintNumber(n, ""))
    case NumWord(word) => Literal(word)
    case Str(s) => Literal(w.unquote(s.body))
    case Select(s) => EvalSel(w, s, db)
    case RangeFn(fn, _, _, s, xs, _) => w.apply(fn, [EvalSel(w, s, db)] + EvalExtras(xs))
    case Call(f, _, args) => w.apply(f, EvalArgs(w, args, db))
    case Aggregate(f, grp, _, args) => w.apply(f + PrintModifier(grp, ""), EvalArgs(w, args, db))
    case AggregateBy(f, _, args, grp) => w.apply(f + PrintModifier(grp, ""), EvalArgs(w, args, db))
    case Paren(_, e, _) => Eval(w, e, db)
    case Subquery(e, _, range) => w.apply("[" + range + "]", [Eval(w, e, db)])
    case Unary(sign, _, e) => w.apply([sign], [Eval(w, e, db)])
    case Binary(l, _, op, mods, _, r) => EvalBinary(w, op, mods, Eval(w, l, db), Eval(w, r, db))
  }

  /** The series of the given WAFs. */
  ghost function Restrict(db: set<Series>, ids: seq<Identity>): set<Series> {
    set x | x in db && exists k :: 0 <= k < |ids| && Member(x, ids[k])
  }

  /** `p` holds of every selector of the query. */
  ghost predicate Every(e: Expr, p: Sel -> bool) {
    match e
    case Num(_) => true
    case NumWord(_) => true
    case Str(_) => true
    case Select(s) => p(s)
    case RangeFn(_, _, _, s, _, _) => p(s)
    case Call(_, _, args) => EveryArg(args, p)
    case Aggregate(_, _, _, args) => EveryArg(args, p)
    case AggregateBy(_, _, args, _) => EveryArg(args, p)
    case Paren(_, e, _) => Every(e, p)
    case Subquery(e, _, _) => Every(e, p)
    case Unary(_, _, e) => Every(e, p)
    case Binary(l, _, _, _, _, r) => Every(l, p) && Every(r, p)
  }

  ghost predicate EveryArg(a: Args, p: Sel -> bool) {
    match a
    case NoArgs(_) => true
    case LastArg(_, e, _) => Every(e, p)
    case MoreArgs(_, e, _, rest) => Every(e, p) && EveryArg(rest, p)
  }

  // ----- one WAF

  ghost predicate OwnSel(w: World, s: Sel, id: Identity) { OwnIdentity(w, MatchersOf(s), id) }

  lemma NarrowSet(w: World, s: Sel, id: Identity, db: set<Series>)
    requires Readable(w, id) && ScopeSel(s, [id]).Ok? && OwnSel(w, s, id)
    ensures PickSet(w, Narrow(s, id), db) == PickSet(w, s, Restrict(db, [id]))
  {
    hide Picks, Member, Narrow, ScopeSel, OwnIdentity, Readable;
    forall x ensures Picks(w, Narrow(s, id), x) <==> Picks(w, s, x) && Member(x, id) {
      NarrowExact(w, s, id, x);
    }
    forall x | x in db ensures x in Restrict(db, [id]) <==> Member(x, id) {
      assert [id][0] == id;
    }
  }

  lemma ScopeSelOne(s: Sel, id: Identity)
    requires ScopeSel(s, [id]).Ok?
    ensures ScopeSel(s, [id]).value == [Narrow(s, id)]
  {
    hide Narrow, Wanted;
    assert [id][1..] == [];
    assert NarrowAll(s, []) == Ok([]);
  }

  lemma TightPicks(w: World, s: Sel, db: set<Series>)
    ensures PickSet(w, Tight(s), db) == PickSet(w, s, db) && MatchersOf(Tight(s)) == MatchersOf(s) && Tight(s).range == s.range
  {
  }

  lemma SelectOne(w: World, s: Sel, id: Identity, db: set<Series>)
    requires Readable(w, id) && ScopeSel(s, [id]).Ok? && OwnSel(w, s, id)
    ensures EvalSel(w, Narrow(s, id), db) == EvalSel(w, s, Restrict(db, [id]))
  {
    hide PickSet, ScopeSel, Readable, OwnSel, Restrict;
    NarrowSet(w, s, id, db);
    assert Narrow(s, id).range == s.range;
  }

  lemma RangeFnOne(w: World, e: Expr, id: Identity, db: set<Series>)
    requires Readable(w, id) && e.RangeFn? && Scope(e, [id]).Ok? && OwnSel(w, e.arg, id)
    ensures Eval(w, Scope(e, [id]).value, db) == Eval(w, e, Restrict(db, [id]))
  {
    hide PickSet, ScopeSel, Readable, OwnIdentity, Restrict, Narrow, MatchersOf, EvalExtras, Tight;
    var s := Tight(e.arg);
    TightPicks(w, e.arg, Restrict(db, [id]));
    ScopeSelOne(s, id);
    SelectOne(w, s, id, db);
    RangeFnsOne(e.fn, Narrow(s, id), e.extras, e.g3);
  }

  lemma RangeFnsOne(fn: string, s: Sel, xs: seq<Extra>, g3: string)
    ensures UnionOf(RangeFns(fn, [s], xs, g3)) == RangeFn(fn, "", "", s, xs, g3)
  {
    assert [s][1..] == [];
    assert RangeFns(fn, [], xs, g3) == [];
  }

  lemma SelectsOne(s: Sel)
    ensures UnionOf(Selects([s])) == Select(s)
  {
    assert [s][1..] == [];
    assert Selects([]) == [];
  }

  lemma {:induction false} ScopedArgsOne(w: World, a: Args, id: Identity, db: set<Series>)
    requires Readable(w, id) && ScopeArgs(a, [id]).Ok? && EveryArg(a, s => OwnSel(w, s, id))
    ensures EvalArgs(w, ScopeArgs(a, [id]).value, db) == EvalArgs(w, a, Restrict(db, [id]))
    decreases a
  {
    hide Readable, OwnSel, Restrict;
    match a {
      case NoArgs(_) =>
      case LastArg(_, e, _) => ScopedQueryOfOneWaf(w, e, id, db);
      case MoreArgs(_, e, _, rest) =>
        ScopedQueryOfOneWaf(w, e, id, db);
        ScopedArgsOne(w, rest, id, db);
    }
  }

  /** A query scoped to one WAF computes on the whole database what the original computes on
      that WAF's series, whatever the functions, aggregations and operators compute. */
  lemma {:induction false} ScopedQueryOfOneWaf(w: World, e: Expr, id: Identity, db: set<Series>)
    requires Readable(w, id) && Scope(e, [id]).Ok? && Every(e, s => OwnSel(w, s, id))
    ensures Eval(w, Scope(e, [id]).value, db) == Eval(w, e, Restrict(db, [id]))
    decreases e
  {
    hide Readable, OwnSel, Restrict, ScopeSel, EvalSel, EvalBinary, EvalExtras, Tight, PrintModifier, PrintNumber;
    match e {
      case Num(_) =>
      case NumWord(_) =>
      case Str(_) =>
      case Select(s) =>
        ScopeSelOne(s, id);
        SelectOne(w, s, id, db);
        SelectsOne(Narrow(s, id));
      case RangeFn(_, _, _, _, _, _) => RangeFnOne(w, e, id, db);
      case Call(_, _, a) => ScopedArgsOne(w, a, id, db);
      case Aggregate(_, _, _, a) => ScopedArgsOne(w, a, id, db);
      case AggregateBy(_, _, a, _) => ScopedArgsOne(w, a, id, db);
      case Paren(_, e1, _) => ScopedQueryOfOneWaf(w, e1, id, db);
      case Subquery(e1, _, _) => ScopedQueryOfOneWaf(w, e1, id, db);
      case Unary(_, _, e1) => ScopedQueryOfOneWaf(w, e1, id, db);
      case Binary(l, _, _, _, _, r) =>
        ScopedQueryOfOneWaf(w, l, id, db);
        ScopedQueryOfOneWaf(w, r, id, db);
    }
  }
}
