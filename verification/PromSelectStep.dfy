/** One step of the scanner on a selector and on a range function applied to one. */
module PromSelectStep {
  import opened Text
  import opened PromLexer
  import opened PromScope
  import opened PromTree
  import opened PromScopeTree
  import opened PromTokens
  import opened PromMatchers
  import opened PromSelectors

  lemma RangePrint(g: string, range: Option<string>, k: string)
    ensures PrintRange(g, range, k) == PrintRange(g, range, "") + k
  {
    if range.Some? {
      assert "]" + "" == "]";
      Assoc(range.value, "]", k);
      Assoc("[", range.value + "]", k);
      Assoc(g, "[" + (range.value + "]"), k);
    }
  }

  /** Nothing after the blanks would be read as a range. */
  ghost predicate NoRange(k: string) { BlankLen(k) == |k| || k[BlankLen(k)] != '[' }

  function RangeLen(s: Sel): nat { |PrintRange(s.g2, s.range, "")| }

  lemma RangeAtOf(s: Sel, k: string)
    requires WfSel(s) && (s.range.None? ==> NoRange(k))
    ensures var rest := PrintRange(s.g2, s.range, k);
            RangeAt(rest) == Ok(RangeLen(s)) && RangeLen(s) <= |rest| &&
            rest[..RangeLen(s)] == PrintRange(s.g2, s.range, "")
  {
    if s.range.Some? {
      var text := s.range.value;
      var t := "[" + (text + ("]" + k));
      BlankLenOf(s.g2, t);
      assert (s.g2 + t)[|s.g2|..] == t;
      GroupEndOf(text, k, BRACKET);
      RangePrint(s.g2, s.range, k);
      Cut(PrintRange(s.g2, s.range, ""), k);
    }
  }

  /** The selectors emitted for a selector that is followed by its range, if it has one. */
  lemma ScopedPartsOf(s: Sel, k: string, ids: seq<Identity>)
    requires WfSel(s) && (s.range.None? ==> NoRange(k))
    ensures ScopedParts(s.metric, CoreOf(s), PrintRange(s.g2, s.range, k), ids) ==
            match ScopeSel(s, ids)
            case Err(e) => Err(e)
            case Ok(ss) => Ok(Parts(SelTexts(ss), RangeLen(s)))
  {
    hide RejectForeign, InjectAll, WfSel, CoreOf, StripIdentity, Wanted, Acceptable, NarrowAll, NoRange,
         SelTexts, RangeAt, PrintRange, RangeLen, MatchersOf;
    RejectOf(s, ids);
    InjectAllOf(s, ids);
    RangeAtOf(s, k);
  }

  // ----- unions

  function ExprTexts(es: seq<Expr>): seq<string> {
    if |es| == 0 then [] else [Print(es[0])] + ExprTexts(es[1..])
  }

  /** ` or ` in front of each expression. */
  function OrTail(es: seq<Expr>, k: string): string {
    if |es| == 0 then k else " " + ("or" + (" " + PrintTo(es[0], OrTail(es[1..], k))))
  }

  lemma {:induction false} OrAllPrint(e: Expr, es: seq<Expr>, k: string)
    ensures PrintTo(OrAll(e, es), k) == PrintTo(e, OrTail(es, k))
    decreases |es|
  {
    if |es| > 0 {
      var t := Binary(e, " ", "or", [], " ", es[0]);
      OrAllPrint(t, es[1..], k);
      assert PrintModifiers([], " " + PrintTo(es[0], OrTail(es[1..], k))) == " " + PrintTo(es[0], OrTail(es[1..], k));
    }
  }

  /** Each expression prints in front of any text. */
  ghost predicate Plainly(es: seq<Expr>) {
    forall i, k :: 0 <= i < |es| ==> PrintTo(es[i], k) == Print(es[i]) + k
  }

  lemma {:induction false} OrTailJoin(es: seq<Expr>, k: string)
    requires Plainly(es) && |es| > 0
    ensures PrintTo(es[0], OrTail(es[1..], k)) == Join(ExprTexts(es), " or ") + k
  {
    var first := Print(es[0]);
    hide PrintTo;
    if |es| == 1 {
      assert ExprTexts(es) == [first];
    } else {
      var j := Join(ExprTexts(es[1..]), " or ");
      assert es[1..][1..] == es[2..];
      OrTailJoin(es[1..], k);
      assert ExprTexts(es)[1..] == ExprTexts(es[1..]);
      assert OrTail(es[1..], k) == " " + ("or" + (" " + (j + k)));
      OrText(j, k);
      Assoc(first, " or " + j, k);
      Assoc(first, " or ", j);
    }
  }

  lemma OrText(j: string, k: string)
    ensures " " + ("or" + (" " + (j + k))) == (" or " + j) + k
  {
    assert " " + ("or" + (" " + (j + k))) == " or " + (j + k);
    Assoc(" or ", j, k);
  }

  lemma UnionPrint(es: seq<Expr>, k: string)
    requires Plainly(es) && |es| > 0
    ensures PrintTo(UnionOf(es), k) == Union(ExprTexts(es)) + k
  {
    TextsLen(es);
    if |es| == 1 {
    } else {
      var j := Join(ExprTexts(es), " or ");
      OrAllPrint(es[0], es[1..], "" + (")" + k));
      OrTailJoin(es, "" + (")" + k));
      hide PrintTo, OrAll, Plainly, Join, ExprTexts, OrTail;
      ParenPrint("", OrAll(es[0], es[1..]), "", k);
      assert "(" + ("" + (j + ("" + (")" + k)))) == "(" + j + ")" + k;
    }
  }

  lemma ParenPrint(g1: string, e: Expr, g2: string, k: string)
    ensures PrintTo(Paren(g1, e, g2), k) == "(" + (g1 + PrintTo(e, g2 + (")" + k)))
  {
  }

  lemma {:induction false} TextsLen(es: seq<Expr>)
    ensures |ExprTexts(es)| == |es|
    ensures |es| == 1 ==> ExprTexts(es) == [Print(es[0])]
  {
    if |es| > 0 { TextsLen(es[1..]); }
  }

  lemma SelPrint(s: Sel, k: string)
    ensures PrintSel(s, k) == PrintSel(s, "") + k
  {
    var r := PrintRange(s.g2, s.range, "");
    RangePrint(s.g2, s.range, k);
    match s.braces {
      case None =>
        Assoc(s.metric, r, k);
      case Some(b) =>
        BracesPrint(b, r);
        BracesPrint(b, r + k);
        var t := PrintBraces(b, "");
        hide PrintBraces, PrintRange;
        Assoc(t, r, k);
        Assoc(s.g1, t + r, k);
        Assoc(s.metric, s.g1 + (t + r), k);
    }
  }

  lemma BracesPrint(b: Braces, k: string)
    ensures PrintBraces(b, k) == PrintBraces(b, "") + k
  {
    BodyPrint(b, "}" + k);
    BodyPrint(b, "}" + "");
    hide PrintBody, Core;
    var body := b.lead + Core(b) + b.trail;
    assert "}" + "" == "}";
    assert "{" + (body + ("}" + k)) == ("{" + (body + "}")) + k;
  }

  lemma {:induction false} SelectsPrint(ss: seq<Sel>)
    ensures Plainly(Selects(ss)) && ExprTexts(Selects(ss)) == SelTexts(ss)
  {
    hide PrintSel;
    if |ss| > 0 {
      SelectsPrint(ss[1..]);
      var es := Selects(ss);
      assert es[1..] == Selects(ss[1..]);
      forall i, k | 0 <= i < |es| ensures PrintTo(es[i], k) == Print(es[i]) + k {
        if i == 0 { SelPrint(ss[0], k); } else { assert es[i] == es[1..][i - 1]; }
      }
    }
  }

  // ----- the step on a selector

  /** Text that cannot prolong a name, a number or a selector in front of it. */
  ghost predicate Follow(k: string) {
    NoIdent(k) && (k == "" || k[0] != '.') && Ends(k[BlankLen(k)..])
  }

  ghost predicate Ends(t: string) {
    t == "" || (t[0] != '(' && t[0] != '{' && t[0] != '[' && !AggregationFollows(t))
  }

  /** Text that does not turn a name in front of it into a call or a braced selector. */
  ghost predicate Uncalled(rest: string) {
    var t := rest[BlankLen(rest)..];
    t == "" || (t[0] != '(' && t[0] != '{' && !AggregationFollows(t))
  }

  lemma FollowRange(k: string)
    requires Follow(k)
    ensures NoRange(k)
  {
  }

  function Chosen(ss: Result<seq<Sel>, Error>, taken: nat): Result<Emit, Error> {
    match ss
    case Err(e) => Err(e)
    case Ok(ss) => Ok(Emit(Union(SelTexts(ss)), taken))
  }

  lemma SelectorOf(s: Sel, before: nat, k: string, ids: seq<Identity>)
    requires WfSel(s) && (s.range.None? ==> NoRange(k))
    ensures Selector(s.metric, CoreOf(s), before, PrintRange(s.g2, s.range, k), ids) ==
            Chosen(ScopeSel(s, ids), before + RangeLen(s))
  {
    hide WfSel, ScopedParts, CoreOf, PrintRange, RangeLen, NoRange, Union, ScopeSel;
    ScopedPartsOf(s, k, ids);
  }

  lemma BraceSelectorAt(t: string, metric: string, at: nat, n: nat, inner: string, rest: string, ids: seq<Identity>)
    requires at < |t| && t[at] == '{' && 2 <= n <= |t| - at
    requires GroupEnd(t[at..], BRACE) == Some(n) && Inner(t[at..], n) == inner && t[at + n..] == rest
    ensures BraceSelector(t, metric, at, ids) == Selector(metric, inner, at + n, rest, ids)
  {
    hide GroupEnd, Inner, Selector;
  }

  lemma BracesStart(b: Braces, rest: string)
    ensures PrintBraces(b, rest) != "" && PrintBraces(b, rest)[0] == '{' && 2 <= BracesLen(b)
  {
  }

  lemma BraceSelectorOf(pre: string, metric: string, b: Braces, rest: string, ids: seq<Identity>)
    requires WfBraces(b)
    ensures var t := pre + PrintBraces(b, rest);
            |pre| < |t| && t[|pre|] == '{' &&
            BraceSelector(t, metric, |pre|, ids) == Selector(metric, Core(b), |pre| + BracesLen(b), rest, ids)
  {
    hide *;
    var u := PrintBraces(b, rest);
    BracesStart(b, rest);
    Cut(pre, u);
    BraceEnd(b, rest);
    BracesCut(b, rest);
    assert (pre + u)[|pre| + BracesLen(b)..] == u[BracesLen(b)..];
    BraceSelectorAt(pre + u, metric, |pre|, BracesLen(b), Core(b), rest, ids);
  }

  lemma StepBrace(t: string, ids: seq<Identity>)
    requires t != "" && t[0] == '{'
    ensures Step(t, ids) == BraceSelector(t, "", 0, ids)
  {
    hide BraceSelector, Word;
  }

  lemma NameBrace(t: string, n: nat, j: nat, ids: seq<Identity>)
    requires 0 < n <= j < |t| && j == n + BlankLen(t[n..]) && t[j] == '{' && !IsKeyword(Lower(t[..n]))
    ensures Word(t, n, ids) == BraceSelector(t, t[..n], j, ids)
  {
    assert t[j..][0] == '{';
    assert !AggregationFollows(t[j..]);
    hide BraceSelector, RangeCall, Selector, AggregationFollows, IsKeyword, IsAggregator, IsRangeFunction;
  }

  lemma NameBare(t: string, n: nat, j: nat, ids: seq<Identity>)
    requires 0 < n <= j <= |t| && j == n + BlankLen(t[n..]) && !IsKeyword(Lower(t[..n]))
    requires j < |t| ==> t[j] != '(' && t[j] != '{' && !AggregationFollows(t[j..])
    ensures Word(t, n, ids) == Selector(t[..n], "", n, t[n..], ids)
  {
    hide BraceSelector, RangeCall, Selector, IsKeyword, IsAggregator, IsRangeFunction;
    if j == |t| {
      assert t[j..] == "";
      assert !AggregationFollows(t[j..]);
    }
    hide AggregationFollows;
  }

  lemma SelFacts(s: Sel)
    requires WfSel(s)
    ensures Gap(s.g1) && Gap(s.g2) && (s.metric != "" ==> IsIdent(s.metric) && !IsKeyword(Lower(s.metric)))
    ensures s.braces.Some? ==> WfBraces(s.braces.value) && CoreOf(s) == Core(s.braces.value)
    ensures s.braces.None? ==> s.metric != "" && CoreOf(s) == ""
    ensures s.metric == "" ==> s.g1 == ""
  {
  }

  /** The printing of a selector with braces, cut in front of them. */
  lemma SelCut(s: Sel, k: string)
    requires s.braces.Some?
    ensures PrintSel(s, k) == (s.metric + s.g1) + PrintBraces(s.braces.value, PrintRange(s.g2, s.range, k))
  {
    hide PrintBraces, PrintRange;
    Assoc(s.metric, s.g1, PrintBraces(s.braces.value, PrintRange(s.g2, s.range, k)));
  }

  lemma StepBraces(s: Sel, k: string, ids: seq<Identity>)
    requires WfSel(s) && s.braces.Some? && (s.range.None? ==> NoRange(k))
    ensures Step(PrintSel(s, k), ids) ==
            Chosen(ScopeSel(s, ids), |s.metric + s.g1| + BracesLen(s.braces.value) + RangeLen(s))
  {
    hide *;
    var pre, b, rest := s.metric + s.g1, s.braces.value, PrintRange(s.g2, s.range, k);
    var u := PrintBraces(b, rest);
    SelFacts(s);
    SelCut(s, k);
    BracesStart(b, rest);
    BraceSelectorOf(pre, s.metric, b, rest, ids);
    SelectorOf(s, |pre| + BracesLen(b), k, ids);
    if s.metric == "" {
      assert pre == "";
      StepBrace(pre + u, ids);
    } else {
      NameBraceAt(s.metric, s.g1, u, ids);
    }
  }

  lemma GapNoIdent(g: string, u: string)
    requires Gap(g) && u != "" && !IsIdentCont(u[0])
    ensures NoIdent(g + u)
  {
    assert (g + u)[0] == if g == "" then u[0] else g[0];
  }

  lemma NameCut(metric: string, g: string, u: string)
    requires IsIdent(metric) && Gap(g) && u != "" && u[0] == '{'
    ensures var t := (metric + g) + u;
            t == metric + (g + u) && t[..|metric|] == metric && t[|metric|..] == g + u && t[|metric| + |g|] == u[0]
    ensures BlankLen(g + u) == |g| && NoIdent(g + u) && |metric| > 0
  {
    assert BlankLen(u) == 0 && !IsIdentCont('{') && |metric| > 0;
    hide *;
    Assoc(metric, g, u);
    Cut(metric, g + u);
    BlankLenOf(g, u);
    GapNoIdent(g, u);
    assert ((metric + g) + u)[|metric + g|] == u[0];
  }

  lemma NameBraceAt(metric: string, g: string, u: string, ids: seq<Identity>)
    requires IsIdent(metric) && !IsKeyword(Lower(metric)) && Gap(g) && u != "" && u[0] == '{'
    ensures var t, j := (metric + g) + u, |metric + g|;
            j < |t| && t[j] == '{' && Step(t, ids) == BraceSelector(t, metric, j, ids)
  {
    hide *;
    var t := (metric + g) + u;
    NameCut(metric, g, u);
    StepWord(metric, g + u, ids);
    NameBrace(t, |metric|, |metric + g|, ids);
  }

  lemma StepBare(s: Sel, k: string, ids: seq<Identity>)
    requires WfSel(s) && s.braces.None? && (s.range.None? ==> Follow(k))
    ensures Step(PrintSel(s, k), ids) == Chosen(ScopeSel(s, ids), |s.metric| + RangeLen(s))
  {
    hide *;
    var rest := PrintRange(s.g2, s.range, k);
    SelFacts(s);
    BarePrint(s, k);
    BareRest(s, k);
    StepWord(s.metric, rest, ids);
    NameBareAt(s.metric, rest, ids);
    if s.range.None? { FollowRange(k); }
    SelectorOf(s, |s.metric|, k, ids);
  }

  lemma BarePrint(s: Sel, k: string)
    requires s.braces.None?
    ensures PrintSel(s, k) == s.metric + PrintRange(s.g2, s.range, k)
  {
  }

  lemma UncalledAt(metric: string, rest: string)
    requires IsIdent(metric) && Uncalled(rest)
    ensures var t, j := metric + rest, |metric| + BlankLen(rest);
            |metric| > 0 && (j < |t| ==> t[j] != '(' && t[j] != '{' && !AggregationFollows(t[j..]))
  {
    hide AggregationFollows, IsIdentStart, IsIdentCont;
    var t, j := metric + rest, |metric| + BlankLen(rest);
    assert t[j..] == rest[BlankLen(rest)..];
    assert j < |t| ==> t[j] == t[j..][0];
  }

  lemma NameBareAt(metric: string, rest: string, ids: seq<Identity>)
    requires IsIdent(metric) && !IsKeyword(Lower(metric)) && Uncalled(rest)
    ensures Word(metric + rest, |metric|, ids) == Selector(metric, "", |metric|, rest, ids)
  {
    hide *;
    Cut(metric, rest);
    UncalledAt(metric, rest);
    NameBare(metric + rest, |metric|, |metric| + BlankLen(rest), ids);
  }

  /** What follows a bare metric neither prolongs it nor makes it a call. */
  lemma BareRest(s: Sel, k: string)
    requires WfSel(s) && s.braces.None? && (s.range.None? ==> Follow(k))
    ensures NoIdent(PrintRange(s.g2, s.range, k)) && Uncalled(PrintRange(s.g2, s.range, k))
  {
    if s.range.Some? {
      var t := "[" + (s.range.value + ("]" + k));
      BlankLenOf(s.g2, t);
      assert (s.g2 + t)[|s.g2|..] == t;
      assert t[0] == '[';
      assert s.g2 == "" ==> s.g2 + t == t;
    }
  }
}
