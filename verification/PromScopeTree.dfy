/** Scoping as a transformation of trees: what the scanner is meant to do. */
module PromScopeTree {
  import opened Text
  import opened PromLexer
  import opened PromScope
  import opened PromTree

  function Flatten(ms: Matchers): seq<Matcher> {
    match ms
    case Last(m, _) => [m]
    case More(m, _, _, rest) => [m] + Flatten(rest)
  }

  function MatchersOf(s: Sel): seq<Matcher> {
    if s.braces.Some? && s.braces.value.ms.Some? then Flatten(s.braces.value.ms.value) else []
  }

  predicate Occurs(p: string, s: string) { Index(s, p).Some? }

  /** The value holds no operator that the scanner would try before the matcher's own. */
  predicate ReadAsWritten(m: Matcher) {
    && (m.op in ["!~", "!=", "="] ==> !Occurs("=~", m.value.body))
    && (m.op in ["!=", "="] ==> !Occurs("!~", m.value.body))
    && (m.op == "=" ==> !Occurs("!=", m.value.body))
  }

  /** A matcher on one of the two identity labels that the scanner recognises as such. */
  predicate OnIdentity(m: Matcher) { IsIdentityKey(m.name) && ReadAsWritten(m) }

  /** The identity a selector asks for: the last equality on each label. */
  function Wanted(ms: seq<Matcher>, found: Identity): Result<Identity, Error> {
    if |ms| == 0 then Ok(found)
    else if !OnIdentity(ms[0]) then Wanted(ms[1..], found)
    else if ms[0].op != "=" then Err(NotEquality(ms[0].name))
    else if ms[0].name == "waf_namespace" then Wanted(ms[1..], found.(namespace := ms[0].value.body))
    else Wanted(ms[1..], found.(name := ms[0].value.body))
  }

  predicate Acceptable(want: Identity, ids: seq<Identity>) {
    want == Identity("", "") || exists k :: 0 <= k < |ids| && Admits(want, ids[k])
  }

  function Others(ms: seq<Matcher>): seq<Matcher> {
    if |ms| == 0 then []
    else if OnIdentity(ms[0]) then Others(ms[1..])
    else [ms[0]] + Others(ms[1..])
  }

  function Listing(m: Matcher, rest: seq<Matcher>): Matchers
    decreases |rest|
  {
    if |rest| == 0 then Last(m, None) else More(m, "", "", Listing(rest[0], rest[1..]))
  }

  function Equals(name: string, value: string): Matcher {
    Matcher(name, "", "=", "", Quoted('"', Escape(value)))
  }

  /** The selector narrowed to one WAF, its own identity matchers dropped. */
  function Narrow(s: Sel, id: Identity): Sel {
    var ms := Listing(Equals("waf_namespace", id.namespace), [Equals("waf_name", id.name)] + Others(MatchersOf(s)));
    s.(g1 := "", braces := Some(Braces("", Some(ms), "")))
  }

  function NarrowAll(s: Sel, ids: seq<Identity>): (r: Result<seq<Sel>, Error>)
    ensures r.Ok? ==> |r.value| == |ids|
  {
    if |ids| == 0 then Ok([])
    else if ids[0].namespace == "" || ids[0].name == "" then Err(InvalidIdentity)
    else
      var rest :- NarrowAll(s, ids[1..]);
      Ok([Narrow(s, ids[0])] + rest)
  }

  function ScopeSel(s: Sel, ids: seq<Identity>): (r: Result<seq<Sel>, Error>)
    ensures r.Ok? ==> |r.value| == |ids|
  {
    var want :- Wanted(MatchersOf(s), Identity("", ""));
    if Acceptable(want, ids) then NarrowAll(s, ids) else Err(EscapesScope)
  }

  /** `e or es[0] or es[1] ...`, associating to the left as PromQL does. */
  function OrAll(e: Expr, es: seq<Expr>): Expr
    decreases |es|
  {
    if |es| == 0 then e else OrAll(Binary(e, " ", "or", [], " ", es[0]), es[1..])
  }

  function UnionOf(es: seq<Expr>): Expr
    requires |es| > 0
  {
    if |es| == 1 then es[0] else Paren("", OrAll(es[0], es[1..]), "")
  }

  function Selects(ss: seq<Sel>): (r: seq<Expr>)
    ensures |r| == |ss|
  {
    if |ss| == 0 then [] else [Select(ss[0])] + Selects(ss[1..])
  }

  lemma {:induction false} SelectsAt(ss: seq<Sel>, k: nat)
    requires k < |ss|
    ensures Selects(ss)[k] == Select(ss[k])
  {
    if k > 0 { SelectsAt(ss[1..], k - 1); }
  }

  function RangeFns(fn: string, ss: seq<Sel>, xs: seq<Extra>, g3: string): (r: seq<Expr>)
    ensures |r| == |ss|
  {
    if |ss| == 0 then [] else [RangeFn(fn, "", "", ss[0], xs, g3)] + RangeFns(fn, ss[1..], xs, g3)
  }

  lemma {:induction false} RangeFnsAt(fn: string, ss: seq<Sel>, xs: seq<Extra>, g3: string, k: nat)
    requires k < |ss|
    ensures RangeFns(fn, ss, xs, g3)[k] == RangeFn(fn, "", "", ss[k], xs, g3)
  {
    if k > 0 { RangeFnsAt(fn, ss[1..], xs, g3, k - 1); }
  }

  /** A bare metric in a range function loses the blanks before its range. */
  function Tight(s: Sel): Sel {
    if s.braces.None? then s.(g2 := "") else s
  }

  function ScopeArgs(a: Args, ids: seq<Identity>): Result<Args, Error>
    requires |ids| > 0
  {
    match a
    case NoArgs(_) => Ok(a)
    case LastArg(g, e, h) =>
      var e' :- Scope(e, ids);
      Ok(LastArg(g, e', h))
    case MoreArgs(g, e, h, rest) =>
      var e' :- Scope(e, ids);
      var rest' :- ScopeArgs(rest, ids);
      Ok(MoreArgs(g, e', h, rest'))
  }

  /** Every selector narrowed to the identities, a union of selectors where there are
      several, with a range function distributed over the union. */
  function Scope(e: Expr, ids: seq<Identity>): Result<Expr, Error>
    requires |ids| > 0
  {
    match e
    case Num(_) => Ok(e)
    case NumWord(_) => Ok(e)
    case Str(_) => Ok(e)
    case Select(s) =>
      var ss :- ScopeSel(s, ids);
      Ok(UnionOf(Selects(ss)))
    case RangeFn(fn, _, _, s, xs, g3) =>
      var ss :- ScopeSel(Tight(s), ids);
      Ok(UnionOf(RangeFns(fn, ss, xs, g3)))
    case Call(f, g1, args) =>
      var args' :- ScopeArgs(args, ids);
      Ok(Call(f, g1, args'))
    case Aggregate(f, grp, g1, args) =>
      var args' :- ScopeArgs(args, ids);
      Ok(Aggregate(f, grp, g1, args'))
    case AggregateBy(f, g1, args, grp) =>
      var args' :- ScopeArgs(args, ids);
      Ok(AggregateBy(f, g1, args', grp))
    case Paren(g1, e1, g2) =>
      var e' :- Scope(e1, ids);
      Ok(Paren(g1, e', g2))
    case Subquery(e1, g1, range) =>
      var e' :- Scope(e1, ids);
      Ok(Subquery(e', g1, range))
    case Unary(sign, g1, e1) =>
      var e' :- Scope(e1, ids);
      Ok(Unary(sign, g1, e'))
    case Binary(l, g1, op, mods, g2, r) =>
      var l' :- Scope(l, ids);
      var r' :- Scope(r, ids);
      Ok(Binary(l', g1, op, mods, g2, r'))
  }
}
