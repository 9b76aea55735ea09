/** Range vectors and operators. PromQL refuses an operator on a range vector; scoping to several
    WAFs puts one between the narrowed copies of a selector with a range unless a range function
    that the scanner knows stands around it. */
module PromRanges {
  import opened Text
  import opened PromLexer
  import opened PromScope
  import opened PromTree
  import opened PromScopeTree
  import opened PromFragment

  /** The query is a range vector. */
  predicate RangeVector(e: Expr) {
    match e
    case Num(_) => false
    case NumWord(_) => false
    case Str(_) => false
    case Select(s) => s.range.Some?
    case RangeFn(_, _, _, _, _, _) => false
    case Call(_, _, _) => false
    case Aggregate(_, _, _, _) => false
    case AggregateBy(_, _, _, _) => false
    case Paren(_, e, _) => RangeVector(e)
    case Subquery(_, _, _) => true
    case Unary(_, _, _) => false
    case Binary(_, _, _, _, _, _) => false
  }

  /** No operator of the query, `or` among them, has a range vector for an operand. */
  predicate Operable(e: Expr) {
    match e
    case Num(_) => true
    case NumWord(_) => true
    case Str(_) => true
    case Select(_) => true
    case RangeFn(_, _, _, _, _, _) => true
    case Call(_, _, args) => OperableArgs(args)
    case Aggregate(_, _, _, args) => OperableArgs(args)
    case AggregateBy(_, _, args, _) => OperableArgs(args)
    case Paren(_, e, _) => Operable(e)
    case Subquery(e, _, _) => Operable(e)
    case Unary(_, _, e) => Operable(e) && !RangeVector(e)
    case Binary(l, _, _, _, _, r) => Operable(l) && Operable(r) && !RangeVector(l) && !RangeVector(r)
  }

  predicate OperableArgs(a: Args) {
    match a
    case NoArgs(_) => true
    case LastArg(_, e, _) => Operable(e)
    case MoreArgs(_, e, _, rest) => Operable(e) && OperableArgs(rest)
  }

  /** Every selector with a range is the argument of a range function that the scanner knows. */
  predicate Covered(e: Expr) {
    match e
    case Num(_) => true
    case NumWord(_) => true
    case Str(_) => true
    case Select(s) => s.range.None?
    case RangeFn(_, _, _, _, _, _) => true
    case Call(_, _, args) => CoveredArgs(args)
    case Aggregate(_, _, _, args) => CoveredArgs(args)
    case AggregateBy(_, _, args, _) => CoveredArgs(args)
    case Paren(_, e, _) => Covered(e)
    case Subquery(e, _, _) => Covered(e)
    case Unary(_, _, e) => Covered(e)
    case Binary(l, _, _, _, _, r) => Covered(l) && Covered(r)
  }

  predicate CoveredArgs(a: Args) {
    match a
    case NoArgs(_) => true
    case LastArg(_, e, _) => Covered(e)
    case MoreArgs(_, e, _, rest) => Covered(e) && CoveredArgs(rest)
  }

  // ----- unions

  lemma {:induction false} OrAllOperable(e: Expr, es: seq<Expr>, ranged: bool)
    requires Operable(e) && |es| > 0 && RangeVector(e) == ranged
    requires forall k :: 0 <= k < |es| ==> Operable(es[k]) && RangeVector(es[k]) == ranged
    ensures Operable(OrAll(e, es)) <==> !ranged
    ensures !RangeVector(OrAll(e, es))
    decreases |es|
  {
    var or := Binary(e, " ", "or", [], " ", es[0]);
    if |es| == 1 {
      assert OrAll(e, es) == or by { NoneLeft(or, es[1..]); }
    } else if ranged {
      OrAllRefused(or, es[1..]);
    } else {
      OrAllOperable(or, es[1..], false);
    }
  }

  lemma NoneLeft(e: Expr, es: seq<Expr>)
    requires |es| == 0
    ensures OrAll(e, es) == e
  {
  }

  lemma {:induction false} OrAllRefused(e: Expr, es: seq<Expr>)
    requires !Operable(e) && e.Binary?
    ensures !Operable(OrAll(e, es)) && OrAll(e, es).Binary?
    decreases |es|
  {
    if |es| > 0 { OrAllRefused(Binary(e, " ", "or", [], " ", es[0]), es[1..]); }
  }

  /** A union of several range vectors is refused; any other is fine and of one kind with its parts. */
  lemma UnionOperable(es: seq<Expr>, ranged: bool)
    requires |es| > 0 && forall k :: 0 <= k < |es| ==> Operable(es[k]) && RangeVector(es[k]) == ranged
    ensures Operable(UnionOf(es)) <==> |es| == 1 || !ranged
    ensures RangeVector(UnionOf(es)) <==> |es| == 1 && ranged
  {
    hide OrAll;
    if |es| > 1 { OrAllOperable(es[0], es[1..], ranged); }
  }

  // ----- scoping

  lemma SelectOperable(s: Sel, ids: seq<Identity>)
    requires |ids| > 0 && WfSel(s) && ScopeSel(s, ids).Ok?
    ensures var r := UnionOf(Selects(ScopeSel(s, ids).value));
            && (Operable(r) <==> |ids| == 1 || s.range.None?)
            && (RangeVector(r) <==> |ids| == 1 && s.range.Some?)
  {
    hide WfSel, NarrowAll, Wanted, UnionOf;
    var ss := ScopeSel(s, ids).value;
    NarrowAllWf(s, ids);
    forall k | 0 <= k < |ss| ensures Selects(ss)[k] == Select(ss[k]) { SelectsAt(ss, k); }
    UnionOperable(Selects(ss), s.range.Some?);
  }

  lemma RangeFnOperable(e: Expr, ids: seq<Identity>)
    requires |ids| > 0 && e.RangeFn? && Scope(e, ids).Ok?
    ensures Operable(Scope(e, ids).value) && !RangeVector(Scope(e, ids).value)
  {
    hide NarrowAll, Wanted, Tight, UnionOf;
    var ss := ScopeSel(Tight(e.arg), ids).value;
    var es := RangeFns(e.fn, ss, e.extras, e.g3);
    forall k | 0 <= k < |ss| ensures es[k] == RangeFn(e.fn, "", "", ss[k], e.extras, e.g3) {
      RangeFnsAt(e.fn, ss, e.extras, e.g3, k);
    }
    UnionOperable(es, false);
  }

  lemma {:induction false} ScopeArgsOperable(a: Args, ids: seq<Identity>)
    requires |ids| > 0 && WfArgs(a) && ScopeArgs(a, ids).Ok?
    ensures OperableArgs(ScopeArgs(a, ids).value) <==> OperableArgs(a) && (|ids| == 1 || CoveredArgs(a))
    decreases a
  {
    hide Gap, Scope, Wf, Operable, Covered;
    match a {
      case NoArgs(_) =>
      case LastArg(_, e, _) => ScopeOperable(e, ids);
      case MoreArgs(_, e, _, rest) =>
        ScopeOperable(e, ids);
        ScopeArgsOperable(rest, ids);
    }
  }

  /** Scoping keeps operators off range vectors, always for one identity, and for several exactly
      when every selector with a range is the argument of a range function the scanner knows. */
  lemma {:induction false} ScopeOperable(e: Expr, ids: seq<Identity>)
    requires |ids| > 0 && Wf(e) && Scope(e, ids).Ok?
    ensures Operable(Scope(e, ids).value) <==> Operable(e) && (|ids| == 1 || Covered(e))
    ensures |ids| == 1 || Covered(e) ==> RangeVector(Scope(e, ids).value) == RangeVector(e)
    decreases e
  {
    hide WfSel, WfOperator, WfCallee, WfArgs, WfBy, WfNumber, WfQuoted, IsName, IsRangeFunction, IsAggregator, Inert, Gap,
         ScopeSel, UnionOf, OperableArgs, CoveredArgs, ScopeArgs, First, Closed;
    match e {
      case Num(_) =>
      case NumWord(_) =>
      case Str(_) =>
      case Select(s) => SelectOperable(s, ids);
      case RangeFn(_, _, _, _, _, _) => RangeFnOperable(e, ids);
      case Call(_, _, a) => ScopeArgsOperable(a, ids);
      case Aggregate(_, _, _, a) => ScopeArgsOperable(a, ids);
      case AggregateBy(_, _, a, _) => ScopeArgsOperable(a, ids);
      case Paren(_, e1, _) => ScopeOperable(e1, ids);
      case Subquery(e1, _, _) => ScopeOperable(e1, ids);
      case Unary(_, _, e1) => ScopeOperable(e1, ids);
      case Binary(l, _, _, _, _, r) =>
        ScopeOperable(l, ids);
        ScopeOperable(r, ids);
    }
  }

  /** The scoped query is one of the fragment without an operator on a range vector exactly when
      the original has none and, for several identities, neither trap is in it. */
  lemma ScopeSendable(e: Expr, ids: seq<Identity>)
    requires |ids| > 0 && Wf(e) && Scope(e, ids).Ok?
    ensures Wf(Scope(e, ids).value) && Operable(Scope(e, ids).value) <==>
            Operable(e) && (|ids| == 1 || (Parted(e) && Covered(e)))
  {
    hide Wf, Operable, Scope, Parted, Covered;
    ScopeWf(e, ids);
    ScopeOperable(e, ids);
  }
}
