/** Where scoping stays in the fragment. A scoped query is again a query of the fragment, so that
    its printing is read as the scoped tree, unless a union's parenthesis comes right after a bare
    `group_left` or `group_right`, which takes it for its label list. */
module PromFragment {
  import opened Text
  import opened PromLexer
  import opened PromScope
  import opened PromTree
  import opened PromScopeTree
  import opened PromMatchers
  import opened PromIdentity
  import opened PromSelectors

  // ----- narrowed selectors

  lemma EscapeCharBody(c: char, t: string)
    requires StringBody(t, '"')
    ensures StringBody(EscapeChar(c) + t, '"')
  {
    hide HexDigit;
    var e := EscapeChar(c);
    if c >= ' ' && c != '"' && c != '\\' && c != '\U{7F}' {
      assert (e + t)[1..] == t;
    } else if |e| == 2 {
      assert (e + t)[2..] == t;
    } else {
      HexPlain(c as int / 16);
      HexPlain(c as int % 16);
      HexBody(HexDigit(c as int / 16), HexDigit(c as int % 16), t);
      assert e + t == "\\x" + ([HexDigit(c as int / 16)] + ([HexDigit(c as int % 16)] + t));
    }
  }

  lemma HexPlain(n: nat)
    requires n < 16
    ensures HexDigit(n) != '"' && HexDigit(n) != '\\'
  {
    assert forall k :: 0 <= k < 16 ==> "0123456789abcdef"[k] != '"' && "0123456789abcdef"[k] != '\\';
  }

  lemma HexBody(a: char, b: char, t: string)
    requires StringBody(t, '"') && a != '"' && a != '\\' && b != '"' && b != '\\'
    ensures StringBody("\\x" + ([a] + ([b] + t)), '"')
  {
    var u := [b] + t;
    assert u[1..] == t;
    var v := [a] + u;
    assert v[1..] == u;
    assert ("\\x" + v)[2..] == v;
  }

  lemma {:induction false} EscapeBody(s: string)
    ensures StringBody(Escape(s), '"')
  {
    hide EscapeChar;
    if s != "" {
      EscapeBody(s[1..]);
      EscapeCharBody(s[0], Escape(s[1..]));
    }
  }

  lemma EqualsWf(value: string)
    ensures WfMatcher(Equals("waf_namespace", value)) && WfMatcher(Equals("waf_name", value))
  {
    hide Escape, StringBody;
    EscapeBody(value);
  }

  lemma {:induction false} ListingWf(m: Matcher, rest: seq<Matcher>)
    requires WfMatcher(m) && forall i :: 0 <= i < |rest| ==> WfMatcher(rest[i])
    ensures WfMatchers(Listing(m, rest))
    decreases |rest|
  {
    hide WfMatcher;
    if |rest| > 0 { ListingWf(rest[0], rest[1..]); }
  }

  lemma NarrowWf(s: Sel, id: Identity)
    requires WfSel(s)
    ensures WfSel(Narrow(s, id)) && Narrow(s, id).metric == s.metric && Narrow(s, id).range == s.range
  {
    hide Equals, WfMatcher, WfMatchers, MatchersOf, Others, Listing;
    SelMatchers(s);
    OthersWf(MatchersOf(s));
    EqualsWf(id.namespace);
    EqualsWf(id.name);
    ListingWf(Equals("waf_namespace", id.namespace), [Equals("waf_name", id.name)] + Others(MatchersOf(s)));
  }

  lemma TightWf(s: Sel)
    requires WfSel(s)
    ensures WfSel(Tight(s)) && Tight(s).metric == s.metric && Tight(s).range == s.range
  {
  }

  lemma {:induction false} NarrowAllWf(s: Sel, ids: seq<Identity>)
    requires WfSel(s) && NarrowAll(s, ids).Ok?
    ensures forall k :: 0 <= k < |ids| ==>
              var n := NarrowAll(s, ids).value[k]; WfSel(n) && n.metric == s.metric && n.range == s.range
  {
    hide WfSel, Narrow;
    if |ids| > 0 {
      NarrowWf(s, ids[0]);
      NarrowAllWf(s, ids[1..]);
    }
  }

  // ----- unions

  lemma {:induction false} OrAllWf(e: Expr, es: seq<Expr>)
    requires Wf(e) && forall k :: 0 <= k < |es| ==> Wf(es[k])
    ensures Wf(OrAll(e, es))
    decreases |es|
  {
    hide Wf;
    if |es| > 0 {
      OrWf(e, es[0]);
      OrAllWf(Binary(e, " ", "or", [], " ", es[0]), es[1..]);
    }
  }

  lemma OrWf(l: Expr, r: Expr)
    requires Wf(l) && Wf(r)
    ensures Wf(Binary(l, " ", "or", [], " ", r))
  {
    hide First;
    assert Lower("or") == "or" && "or" == WORDS[1];
  }

  /** The union of queries of the fragment is one; of several it is a parenthesis. */
  lemma UnionWf(es: seq<Expr>)
    requires |es| > 0 && forall k :: 0 <= k < |es| ==> Wf(es[k])
    ensures Wf(UnionOf(es))
    ensures |es| > 1 ==> UnionOf(es).Paren?
  {
    hide OrAll;
    if |es| > 1 {
      OrAllWf(es[0], es[1..]);
      ParenWf(OrAll(es[0], es[1..]));
    }
  }

  lemma ParenWf(e: Expr)
    requires Wf(e)
    ensures Wf(Paren("", e, ""))
  {
  }

  // ----- what a scoped query starts and ends with

  /** The query starts with a selector or a range function. */
  predicate Leads(e: Expr) {
    match e
    case Num(_) => false
    case NumWord(_) => false
    case Str(_) => false
    case Select(_) => true
    case RangeFn(_, _, _, _, _, _) => true
    case Call(_, _, _) => false
    case Aggregate(_, _, _, _) => false
    case AggregateBy(_, _, _, _) => false
    case Paren(_, _, _) => false
    case Subquery(e, _, _) => Leads(e)
    case Unary(_, _, _) => false
    case Binary(l, _, _, _, _, _) => Leads(l)
  }

  lemma SelectWf(s: Sel, ids: seq<Identity>)
    requires |ids| > 0 && WfSel(s) && ScopeSel(s, ids).Ok?
    ensures var r := UnionOf(Selects(ScopeSel(s, ids).value));
            && Wf(r) && (|ids| > 1 ==> r.Paren?)
            && (|ids| == 1 ==> r.Select? && r.sel.metric == s.metric && r.sel.range == s.range)
  {
    hide WfSel, NarrowAll, Wanted;
    var ss := ScopeSel(s, ids).value;
    NarrowAllWf(s, ids);
    forall k | 0 <= k < |ss| ensures Wf(Selects(ss)[k]) && Selects(ss)[k] == Select(ss[k]) { SelectsAt(ss, k); }
    UnionWf(Selects(ss));
  }

  lemma RangeFnWf(e: Expr, ids: seq<Identity>)
    requires |ids| > 0 && e.RangeFn? && Wf(e) && Scope(e, ids).Ok?
    ensures var r := Scope(e, ids).value;
            Wf(r) && (|ids| > 1 ==> r.Paren?) && (|ids| == 1 ==> r.RangeFn? && r.fn == e.fn)
  {
    hide WfSel, NarrowAll, Wanted, Tight;
    TightWf(e.arg);
    var s := Tight(e.arg);
    var ss := ScopeSel(s, ids).value;
    NarrowAllWf(s, ids);
    var es := RangeFns(e.fn, ss, e.extras, e.g3);
    forall k | 0 <= k < |ss| ensures Wf(es[k]) && es[k] == RangeFn(e.fn, "", "", ss[k], e.extras, e.g3) {
      RangeFnsAt(e.fn, ss, e.extras, e.g3, k);
      TightCallWf(e, ss[k]);
    }
    UnionWf(es);
  }

  lemma TightCallWf(e: Expr, s: Sel)
    requires e.RangeFn? && Wf(e) && WfSel(s) && s.range.Some?
    ensures Wf(RangeFn(e.fn, "", "", s, e.extras, e.g3))
  {
    hide WfSel, WfExtras, IsName, IsRangeFunction;
  }

  lemma {:induction false} ScopeEnds(e: Expr, ids: seq<Identity>)
    requires |ids| > 0 && Wf(e) && Scope(e, ids).Ok?
    ensures First(Scope(e, ids).value) == if Leads(e) && |ids| > 1 then '(' else First(e)
    ensures Closed(e) ==> Closed(Scope(e, ids).value)
    decreases e
  {
    hide WfSel, WfOperator, WfCallee, WfArgs, WfBy, WfNumber, WfQuoted, IsName, IsRangeFunction, Inert, Gap, ScopeSel, UnionOf;
    match e {
      case Select(s) => SelectWf(s, ids);
      case RangeFn(_, _, _, _, _, _) => RangeFnWf(e, ids);
      case Subquery(e1, _, _) => ScopeEnds(e1, ids);
      case Unary(_, _, e1) => ScopeEnds(e1, ids);
      case Binary(l, _, _, _, _, r) =>
        ScopeEnds(l, ids);
        ScopeEnds(r, ids);
      case _ =>
    }
  }

  // ----- the theorem

  /** No selector or range function comes right after a bare `group_left` or `group_right`. */
  predicate Parted(e: Expr) {
    match e
    case Num(_) => true
    case NumWord(_) => true
    case Str(_) => true
    case Select(_) => true
    case RangeFn(_, _, _, _, _, _) => true
    case Call(_, _, args) => PartedArgs(args)
    case Aggregate(_, _, _, args) => PartedArgs(args)
    case AggregateBy(_, _, args, _) => PartedArgs(args)
    case Paren(_, e, _) => Parted(e)
    case Subquery(e, _, _) => Parted(e)
    case Unary(_, _, e) => Parted(e)
    case Binary(l, _, _, mods, _, r) => Parted(l) && Parted(r) && !(EndsBare(mods) && Leads(r))
  }

  predicate PartedArgs(a: Args) {
    match a
    case NoArgs(_) => true
    case LastArg(_, e, _) => Parted(e)
    case MoreArgs(_, e, _, rest) => Parted(e) && PartedArgs(rest)
  }

  lemma CalleeStays(f: string, a: Args, ids: seq<Identity>)
    requires |ids| > 0 && WfCallee(f, a) && WfArgs(a) && ScopeArgs(a, ids).Ok?
    ensures WfCallee(f, ScopeArgs(a, ids).value)
  {
    hide First, IsName, IsRangeFunction, Wf, Leads;
    if !a.NoArgs? { ScopeEnds(a.e, ids); }
    assert !IsIdentStart('(');
  }

  lemma OperatorStays(e: Expr, ids: seq<Identity>)
    requires e.Binary? && Wf(e) && |ids| > 0 && Scope(e.right, ids).Ok?
    ensures WfOperator(e.g1, e.op, e.mods, e.g2, Scope(e.right, ids).value) <==>
            !(|ids| > 1 && EndsBare(e.mods) && Leads(e.right))
  {
    hide First, Scope, Leads, Spelled, EndsBare;
    ScopeEnds(e.right, ids);
    assert WfOperator(e.g1, e.op, e.mods, e.g2, e.right);
  }

  lemma {:induction false} ScopeArgsWf(a: Args, ids: seq<Identity>)
    requires |ids| > 0 && WfArgs(a) && ScopeArgs(a, ids).Ok?
    ensures WfArgs(ScopeArgs(a, ids).value) <==> |ids| == 1 || PartedArgs(a)
    decreases a
  {
    hide Gap, Scope, Wf, Parted;
    match a {
      case NoArgs(_) =>
      case LastArg(_, e, _) => ScopeWf(e, ids);
      case MoreArgs(_, e, _, rest) =>
        ScopeWf(e, ids);
        ScopeArgsWf(rest, ids);
    }
  }

  /** Scoping a query of the fragment gives one, always for one identity, and for several exactly
      when no selector or range function follows a bare `group_left` or `group_right`. */
  lemma {:induction false} ScopeWf(e: Expr, ids: seq<Identity>)
    requires |ids| > 0 && Wf(e) && Scope(e, ids).Ok?
    ensures Wf(Scope(e, ids).value) <==> |ids| == 1 || Parted(e)
    decreases e
  {
    hide WfSel, WfOperator, WfCallee, WfArgs, WfBy, WfNumber, WfQuoted, IsName, IsRangeFunction, IsAggregator, Inert, Gap,
         ScopeSel, UnionOf, PartedArgs, ScopeArgs, First, Leads, EndsBare;
    match e {
      case Num(_) =>
      case NumWord(_) =>
      case Str(_) =>
      case Select(s) => SelectWf(s, ids);
      case RangeFn(_, _, _, _, _, _) => RangeFnWf(e, ids);
      case Call(f, _, a) =>
        ScopeArgsWf(a, ids);
        CalleeStays(f, a, ids);
      case Aggregate(_, _, _, a) => ScopeArgsWf(a, ids);
      case AggregateBy(f, _, a, _) =>
        ScopeArgsWf(a, ids);
        CalleeStays(f, a, ids);
      case Paren(_, e1, _) => ScopeWf(e1, ids);
      case Subquery(e1, _, _) =>
        ScopeWf(e1, ids);
        ScopeEnds(e1, ids);
      case Unary(_, _, e1) => ScopeWf(e1, ids);
      case Binary(l, _, _, _, _, r) =>
        ScopeWf(l, ids);
        ScopeWf(r, ids);
        OperatorStays(e, ids);
    }
  }
}
