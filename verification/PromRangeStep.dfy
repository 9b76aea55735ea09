/** One step of the scanner on a range function applied to a selector. */
module PromRangeStep {
  import opened Text
  import opened PromLexer
  import opened PromScope
  import opened PromTree
  import opened PromScopeTree
  import opened PromTokens
  import opened PromMatchers
  import opened PromSelectors
  import opened PromSelectStep

  // ----- literal arguments

  lemma {:induction false} ExtrasPrint(xs: seq<Extra>, k: string)
    ensures PrintExtras(xs, k) == PrintExtras(xs, "") + k
  {
    if |xs| > 0 {
      var x, t0, t := xs[0], PrintExtras(xs[1..], ""), PrintExtras(xs[1..], k);
      ExtrasPrint(xs[1..], k);
      ExtraPrint(x, t0, k);
    } else {
      assert "" + k == k;
    }
  }

  lemma ExtraPrint(x: Extra, t0: string, k: string)
    ensures x.before + ("," + (x.after + PrintNumber(x.num, t0 + k))) ==
            (x.before + ("," + (x.after + PrintNumber(x.num, t0)))) + k
  {
    hide PrintNumber;
    var n := PrintNumber(x.num, "");
    NumberPrint(x.num, t0 + k);
    NumberPrint(x.num, t0);
    Assoc(n, t0, k);
    Assoc(x.after, n + t0, k);
    Assoc(",", x.after + (n + t0), k);
    Assoc(x.before, "," + (x.after + (n + t0)), k);
  }

  /** Text of digits, blanks and number marks. */
  ghost predicate Literal(x: string) {
    forall i :: 0 <= i < |x| ==> IsDigit(x[i]) || IsBlank(x[i]) || x[i] in ",.eE+-"
  }

  lemma LiteralPlus(a: string, b: string)
    requires Literal(a) && Literal(b)
    ensures Literal(a + b)
  {
  }

  lemma NumberLiteral(n: Number)
    requires WfNumber(n)
    ensures Literal(n.whole) && Literal(n.fraction) && Literal(n.exponent)
  {
    forall i | 0 <= i < |n.fraction| ensures IsDigit(n.fraction[i]) || n.fraction[i] == '.' {
      if i > 0 { assert n.fraction[i] == n.fraction[1..][i - 1]; }
    }
    ExponentLiteral(n.exponent);
  }

  lemma ExponentLiteral(x: string)
    requires IsExponent(x)
    ensures Literal(x)
  {
    if x != "" {
      var sign := if x[1] == '+' || x[1] == '-' then 1 else 0;
      forall i | 0 <= i < |x| ensures IsDigit(x[i]) || x[i] in "eE+-" {
        if i >= 1 + sign { assert x[i] == x[1 + sign..][i - 1 - sign]; }
      }
    }
  }

  lemma {:induction false} ExtrasLiteral(xs: seq<Extra>, g3: string)
    requires WfExtras(xs) && Gap(g3)
    ensures Literal(PrintExtras(xs, g3))
  {
    if |xs| > 0 {
      var x, t := xs[0], PrintExtras(xs[1..], g3);
      ExtrasLiteral(xs[1..], g3);
      NumberLiteral(x.num);
      assert Literal(x.before) && Literal(x.after) && Literal(",");
      hide Literal, WfNumber, Gap;
      LiteralPlus(x.num.exponent, t);
      LiteralPlus(x.num.fraction, x.num.exponent + t);
      LiteralPlus(x.num.whole, x.num.fraction + (x.num.exponent + t));
      LiteralPlus(x.after, PrintNumber(x.num, t));
      LiteralPlus(",", x.after + PrintNumber(x.num, t));
      LiteralPlus(x.before, "," + (x.after + PrintNumber(x.num, t)));
    }
  }

  lemma LiteralQuiet(x: string)
    requires Literal(x)
    ensures Quiet(x, PAREN) && '{' !in x && '}' !in x
  {
  }

  // ----- the closing parenthesis

  lemma CloseEndRange(l: Lex, g: string, range: Option<string>, k: string)
    requires Resting(l) && Gap(g) && (range.Some? ==> Inert(range.value))
    ensures CloseEnd(l, PrintRange(g, range, k), PAREN) == Later(|PrintRange(g, range, "")|, CloseEnd(l, k, PAREN))
  {
    RangePrint(g, range, k);
    var x := PrintRange(g, range, "");
    RangeQuiet(g, range);
    hide CloseEnd, PrintRange, Quiet, Gap, Inert;
    CloseEndQuiet(l, x, k, PAREN);
  }

  lemma RangeQuiet(g: string, range: Option<string>)
    requires Gap(g) && (range.Some? ==> Inert(range.value))
    ensures Quiet(PrintRange(g, range, ""), PAREN)
  {
    if range.Some? {
      var x, text := PrintRange(g, range, ""), range.value;
      assert x == g + ("[" + (text + "]"));
      assert Quiet(g, PAREN) && Quiet("[", PAREN) && Quiet(text, PAREN) && Quiet("]", PAREN);
      hide Gap, Inert;
      QuietPlus(text, "]");
      QuietPlus("[", text + "]");
      QuietPlus(g, "[" + (text + "]"));
    }
  }

  lemma QuietPlus(a: string, b: string)
    requires Quiet(a, PAREN) && Quiet(b, PAREN)
    ensures Quiet(a + b, PAREN)
  {
  }

  lemma QuietIdent(w: string)
    requires IsIdent(w)
    ensures Quiet(w, PAREN)
  {
  }

  lemma CloseEndParenBraces(l: Lex, b: Braces, k: string)
    requires Resting(l) && WfBraces(b)
    ensures CloseEnd(l, PrintBraces(b, k), PAREN) == Later(BracesLen(b), CloseEnd(l, k, PAREN))
  {
    hide CloseEnd, PrintBody, Core, WfBraces;
    CloseEndCons(l, '{', PrintBody(b, "}" + k), PAREN);
    CloseEndBraces(l, b, "}" + k, PAREN);
    CloseEndCons(l, '}', k, PAREN);
  }

  function SelLen(s: Sel): nat {
    |s.metric| + (if s.braces.Some? then |s.g1| + BracesLen(s.braces.value) else 0) + RangeLen(s)
  }

  lemma MetricQuiet(s: Sel)
    requires WfSel(s)
    ensures Quiet(s.metric, PAREN) && Quiet(s.g1, PAREN)
  {
    if s.metric != "" { QuietIdent(s.metric); }
    QuietGap(s.g1, PAREN);
  }

  lemma RangeInert(s: Sel)
    requires WfSel(s)
    ensures s.range.Some? ==> Inert(s.range.value)
  {
  }

  lemma CloseEndSel(l: Lex, s: Sel, k: string)
    requires Resting(l) && WfSel(s)
    ensures CloseEnd(l, PrintSel(s, k), PAREN) == Later(SelLen(s), CloseEnd(l, k, PAREN))
  {
    hide CloseEnd, Run, Resting, WfSel, WfBraces, PrintBraces, PrintRange, BracesLen, Quiet, Inert, Gap, IsIdent;
    var rest := PrintRange(s.g2, s.range, k);
    RestingFacts(l);
    SelFacts(s);
    RangeInert(s);
    MetricQuiet(s);
    CloseEndRange(l, s.g2, s.range, k);
    match s.braces {
      case None =>
        CloseEndQuiet(l, s.metric, rest, PAREN);
      case Some(b) =>
        CloseEndParenBraces(l, b, rest);
        CloseEndQuiet(l, s.g1, PrintBraces(b, rest), PAREN);
        CloseEndQuiet(l, s.metric, s.g1 + PrintBraces(b, rest), PAREN);
    }
  }

  lemma RestingFacts(l: Lex)
    requires Resting(l)
    ensures l.quote == NUL && l.depth > 0
  {
  }

  /** The call `(g2 selector extras g3)`, from its parenthesis on. */
  function CallText(g2: string, s: Sel, xs: seq<Extra>, g3: string, k: string): string {
    "(" + (g2 + PrintSel(s, PrintExtras(xs, g3 + (")" + k))))
  }

  function CallLen(g2: string, s: Sel, xs: seq<Extra>, g3: string): nat {
    1 + |g2| + SelLen(s) + |PrintExtras(xs, g3)| + 1
  }

  lemma ExtrasTail(xs: seq<Extra>, g3: string, k: string)
    ensures PrintExtras(xs, g3 + (")" + k)) == PrintExtras(xs, g3) + (")" + k)
  {
    ExtrasPrint(xs, g3 + (")" + k));
    ExtrasPrint(xs, g3);
    Assoc(PrintExtras(xs, ""), g3, ")" + k);
  }

  lemma CallEnd(g2: string, s: Sel, xs: seq<Extra>, g3: string, k: string)
    requires Gap(g2) && WfSel(s) && WfExtras(xs) && Gap(g3)
    ensures GroupEnd(CallText(g2, s, xs, g3, k), PAREN) == Some(CallLen(g2, s, xs, g3))
  {
    hide CloseEnd, Run, WfSel, WfExtras, PrintSel, PrintExtras, SelLen, Quiet, Gap, Literal;
    var x := PrintExtras(xs, g3);
    ExtrasTail(xs, g3, k);
    ExtrasLiteral(xs, g3);
    LiteralQuiet(x);
    QuietGap(g2, PAREN);
    CloseEndCons(PLAIN, ')', k, PAREN);
    CloseEndQuiet(PLAIN, x, ")" + k, PAREN);
    CloseEndSel(PLAIN, s, x + (")" + k));
    CloseEndQuiet(PLAIN, g2, PrintSel(s, x + (")" + k)), PAREN);
    assert CallText(g2, s, xs, g3, k)[1..] == g2 + PrintSel(s, x + (")" + k));
  }

  // ----- the emitted calls

  lemma {:induction false} CallsOf(fn: string, ss: seq<Sel>, xs: seq<Extra>, g3: string)
    ensures Plainly(RangeFns(fn, ss, xs, g3))
    ensures ExprTexts(RangeFns(fn, ss, xs, g3)) == Calls(fn, SelTexts(ss), PrintExtras(xs, g3))
  {
    hide PrintSel, PrintExtras, PrintTo;
    if |ss| > 0 {
      CallsOf(fn, ss[1..], xs, g3);
      var es := RangeFns(fn, ss, xs, g3);
      assert es[1..] == RangeFns(fn, ss[1..], xs, g3);
      assert SelTexts(ss)[1..] == SelTexts(ss[1..]);
      CallPrint(fn, ss[0], xs, g3, "");
      var text := fn + "(" + PrintSel(ss[0], "") + PrintExtras(xs, g3) + ")";
      assert text + "" == text;
      forall i, k | 0 <= i < |es| ensures PrintTo(es[i], k) == Print(es[i]) + k {
        if i == 0 { CallPrint(fn, ss[0], xs, g3, k); } else { assert es[i] == es[1..][i - 1]; }
      }
    }
  }

  lemma CallPrint(fn: string, s: Sel, xs: seq<Extra>, g3: string, k: string)
    ensures PrintTo(RangeFn(fn, "", "", s, xs, g3), k) == (fn + "(" + PrintSel(s, "") + PrintExtras(xs, g3) + ")") + k
  {
    RangeFnPrint(fn, "", "", s, xs, g3, k);
    hide *;
    var p, x := PrintSel(s, ""), PrintExtras(xs, g3);
    ExtrasTail(xs, g3, k);
    SelPrint(s, x + (")" + k));
    CallAssoc(fn, p, x, k);
  }

  lemma RangeFnPrint(fn: string, g1: string, g2: string, s: Sel, xs: seq<Extra>, g3: string, k: string)
    ensures PrintTo(RangeFn(fn, g1, g2, s, xs, g3), k) ==
            fn + (g1 + ("(" + (g2 + PrintSel(s, PrintExtras(xs, g3 + (")" + k))))))
  {
    hide PrintSel, PrintExtras;
  }

  lemma CallAssoc(fn: string, p: string, x: string, k: string)
    ensures fn + ("" + ("(" + ("" + (p + (x + (")" + k)))))) == (fn + "(" + p + x + ")") + k
  {
    assert "" + (p + (x + (")" + k))) == p + (x + (")" + k));
    assert "" + ("(" + (p + (x + (")" + k)))) == "(" + (p + (x + (")" + k)));
    Assoc(fn, "(", p + (x + (")" + k)));
    Assoc(fn + "(", p, x + (")" + k));
    Assoc(fn + "(" + p, x, ")" + k);
    Assoc(fn + "(" + p + x, ")", k);
  }

  // ----- where the scanner finds the selector

  lemma TightFacts(s: Sel)
    requires WfSel(s) && s.range.Some?
    ensures WfSel(Tight(s)) && Tight(s).range == s.range && Tight(s).metric == s.metric && CoreOf(Tight(s)) == CoreOf(s)
  {
  }

  /** The text after the metric (and its braces), as the range function call sees it. */
  function SelRest(s: Sel, e: string): string { PrintRange(Tight(s).g2, s.range, e) }

  /** The bytes in front of that text: parenthesis, blanks, metric, blanks, braces. */
  function SelAt(g2: string, s: Sel): nat {
    1 + |g2| + |s.metric| + if s.braces.Some? then |s.g1| + BracesLen(s.braces.value) else |s.g2|
  }

  lemma SelAtLen(g2: string, s: Sel)
    requires s.range.Some?
    ensures SelAt(g2, s) + RangeLen(Tight(s)) == 1 + |g2| + SelLen(s)
  {
    hide BracesLen;
  }

  lemma BareRestCut(g2: string, s: Sel, e: string)
    requires s.braces.None? && s.range.Some?
    ensures "(" + (g2 + PrintSel(s, e)) == ("(" + g2 + s.metric + s.g2) + SelRest(s, e)
  {
    var bare := "[" + (s.range.value + ("]" + e));
    assert "" + bare == bare;
    Assoc("(", g2, s.metric + (s.g2 + bare));
    Assoc("(" + g2, s.metric, s.g2 + bare);
    Assoc("(" + g2 + s.metric, s.g2, bare);
  }

  lemma BracesRestCut(g2: string, s: Sel, e: string)
    requires s.braces.Some?
    ensures "(" + (g2 + PrintSel(s, e)) == ("(" + g2 + s.metric + s.g1) + PrintBraces(s.braces.value, SelRest(s, e))
  {
    hide PrintBraces, PrintRange;
    var u := PrintBraces(s.braces.value, SelRest(s, e));
    Assoc("(", g2, s.metric + (s.g1 + u));
    Assoc("(" + g2, s.metric, s.g1 + u);
    Assoc("(" + g2 + s.metric, s.g1, u);
  }

  lemma SelAtIs(g2: string, s: Sel)
    ensures SelAt(g2, s) == if s.braces.Some? then |"(" + g2 + s.metric + s.g1| + BracesLen(s.braces.value) else |"(" + g2 + s.metric + s.g2|
  {
    hide BracesLen;
  }

  lemma SelAtRest(g2: string, s: Sel, e: string)
    requires WfSel(s) && s.range.Some?
    ensures var w := "(" + (g2 + PrintSel(s, e));
            SelAt(g2, s) <= |w| && w[SelAt(g2, s)..] == SelRest(s, e)
    ensures SelAt(g2, s) + RangeLen(Tight(s)) == 1 + |g2| + SelLen(s)
  {
    hide *;
    SelAtLen(g2, s);
    SelAtIs(g2, s);
    SelFacts(s);
    match s.braces {
      case None =>
        BareRestCut(g2, s, e);
        Cut("(" + g2 + s.metric + s.g2, SelRest(s, e));
      case Some(b) =>
        var pre, u := "(" + g2 + s.metric + s.g1, PrintBraces(b, SelRest(s, e));
        BracesRestCut(g2, s, e);
        BracesCut(b, SelRest(s, e));
        assert (pre + u)[|pre| + BracesLen(b)..] == u[BracesLen(b)..];
    }
  }

  function CallsFrom(p: Result<Parts, Error>, fn: string, extra: string, end: nat): Result<Option<Emit>, Error> {
    match p
    case Err(e) => Err(e)
    case Ok(p) => Ok(Some(Emit(Union(Calls(fn, p.parts, extra)), end)))
  }

  function CallsOn(ss: Result<seq<Sel>, Error>, fn: string, extra: string, end: nat): Result<Option<Emit>, Error> {
    match ss
    case Err(e) => Err(e)
    case Ok(ss) => Ok(Some(Emit(Union(Calls(fn, SelTexts(ss), extra)), end)))
  }

  lemma CallsAgree(s: Sel, rest: string, ids: seq<Identity>, taken: nat, fn: string, extra: string, end: nat)
    requires ScopedParts(s.metric, CoreOf(s), rest, ids) ==
             match ScopeSel(s, ids)
             case Err(e) => Err(e)
             case Ok(ss) => Ok(Parts(SelTexts(ss), taken))
    ensures CallsFrom(ScopedParts(s.metric, CoreOf(s), rest, ids), fn, extra, end) == CallsOn(ScopeSel(s, ids), fn, extra, end)
    ensures var p := ScopedParts(s.metric, CoreOf(s), rest, ids); p.Ok? ==> p.value.taken == taken
  {
    hide ScopedParts, ScopeSel, SelTexts, Union, Calls, CoreOf;
  }

  /** A range function whose selector is followed by literal arguments becomes one call per identity. */
  lemma RangeCallFromOf(fn: string, g2: string, s: Sel, xs: seq<Extra>, g3: string, k: string, ids: seq<Identity>)
    requires Gap(g2) && WfSel(s) && s.range.Some? && WfExtras(xs) && Gap(g3)
    ensures var w := CallText(g2, s, xs, g3, k);
            SelAt(g2, s) <= |w| &&
            RangeCallFrom(w, fn, s.metric, CoreOf(s), SelAt(g2, s), ids) ==
            CallsOn(ScopeSel(Tight(s), ids), fn, PrintExtras(xs, g3), CallLen(g2, s, xs, g3))
  {
    hide *;
    var e := PrintExtras(xs, g3 + (")" + k));
    CallTextIs(g2, s, xs, g3, k);
    TightFacts(s);
    SelAtRest(g2, s, e);
    SelRestIs(s, e);
    ScopedPartsOf(Tight(s), e, ids);
    CallEnd(g2, s, xs, g3, k);
    ExtraCut(g2, s, xs, g3, k);
    ExtrasLiteral(xs, g3);
    LiteralQuiet(PrintExtras(xs, g3));
    CallsAgree(Tight(s), SelRest(s, e), ids, RangeLen(Tight(s)), fn, PrintExtras(xs, g3), CallLen(g2, s, xs, g3));
    RangeCallFromAt(CallText(g2, s, xs, g3, k), fn, s.metric, CoreOf(s), SelAt(g2, s), ids,
                    RangeLen(Tight(s)), CallLen(g2, s, xs, g3), PrintExtras(xs, g3));
  }

  lemma CallTextIs(g2: string, s: Sel, xs: seq<Extra>, g3: string, k: string)
    ensures CallText(g2, s, xs, g3, k) == "(" + (g2 + PrintSel(s, PrintExtras(xs, g3 + (")" + k))))
    ensures CallLen(g2, s, xs, g3) == 1 + |g2| + SelLen(s) + |PrintExtras(xs, g3)| + 1
  {
    hide PrintSel, PrintExtras, SelLen;
  }

  lemma SelRestIs(s: Sel, e: string)
    requires s.range.Some?
    ensures SelRest(s, e) == PrintRange(Tight(s).g2, Tight(s).range, e)
    ensures |SelRest(s, e)| == RangeLen(Tight(s)) + |e| && SelRest(s, e)[RangeLen(Tight(s))..] == e
  {
    RangePrint(Tight(s).g2, Tight(s).range, e);
    Cut(PrintRange(Tight(s).g2, Tight(s).range, ""), e);
  }

  /** The bytes between the selector and the closing parenthesis. */
  lemma ExtraCut(g2: string, s: Sel, xs: seq<Extra>, g3: string, k: string)
    requires WfSel(s) && s.range.Some?
    ensures var w, at, end := CallText(g2, s, xs, g3, k), SelAt(g2, s) + RangeLen(Tight(s)), CallLen(g2, s, xs, g3);
            at <= end - 1 <= |w| && w[at..end - 1] == PrintExtras(xs, g3)
  {
    hide *;
    var e, x := PrintExtras(xs, g3 + (")" + k)), PrintExtras(xs, g3);
    CallTextIs(g2, s, xs, g3, k);
    SelAtRest(g2, s, e);
    SelRestIs(s, e);
    ExtrasTail(xs, g3, k);
    var w, at, end := CallText(g2, s, xs, g3, k), SelAt(g2, s) + RangeLen(Tight(s)), CallLen(g2, s, xs, g3);
    assert w[at..] == w[SelAt(g2, s)..][RangeLen(Tight(s))..];
    assert w[at..] == x + (")" + k);
    Cut(x, ")" + k);
    assert w[at..end - 1] == w[at..][..|x|];
  }

  lemma RangeCallFromAt(w: string, fn: string, metric: string, inner: string, sel: nat, ids: seq<Identity>,
                        taken: nat, end: nat, extra: string)
    requires sel <= sel + taken <= end - 1 < |w| && w[sel + taken..end - 1] == extra
    requires GroupEnd(w, PAREN) == Some(end) && '{' !in extra && '}' !in extra
    requires ScopedParts(metric, inner, w[sel..], ids).Ok? ==> ScopedParts(metric, inner, w[sel..], ids).value.taken == taken
    ensures RangeCallFrom(w, fn, metric, inner, sel, ids) ==
            CallsFrom(ScopedParts(metric, inner, w[sel..], ids), fn, extra, end)
  {
    hide ScopedParts, GroupEnd, Union, Calls;
  }

  // ----- finding it

  lemma SelStart(s: Sel, e: string)
    requires WfSel(s)
    ensures PrintSel(s, e) != "" && !IsBlank(PrintSel(s, e)[0])
  {
    hide PrintBody, PrintRange;
  }

  /** Blanks after the parenthesis. */
  lemma LeadCut(g2: string, u: string)
    requires Gap(g2) && u != "" && !IsBlank(u[0])
    ensures var w := "(" + (g2 + u);
            w[0] == '(' && w[1..] == g2 + u && BlankLen(w[1..]) == |g2| && w[1 + |g2|..] == u
  {
    var w := "(" + (g2 + u);
    assert w[1..] == g2 + u;
    BlankLenOf(g2, u);
    Cut(g2, u);
    assert w[1 + |g2|..] == (g2 + u)[|g2|..];
  }

  /** The metric of the selector, from its first byte on. */
  lemma MetricCut(s: Sel, e: string)
    requires WfSel(s) && s.range.Some?
    ensures IdentLen(PrintSel(s, e)) == |s.metric| && PrintSel(s, e)[..|s.metric|] == s.metric
    ensures s.metric != "" ==> BlankLen(PrintSel(s, e)[|s.metric|..]) == if s.braces.Some? then |s.g1| else |s.g2|
  {
    SelFacts(s);
    var u := if s.braces.Some? then s.g1 + PrintBraces(s.braces.value, PrintRange(s.g2, s.range, e))
                               else PrintRange(s.g2, s.range, e);
    assert PrintSel(s, e) == s.metric + u;
    AfterMetric(s, e, u);
    hide PrintSel, PrintBraces, PrintRange, WfSel, WfBraces, IsIdent;
    if s.metric == "" {
      assert s.metric + u == u;
    } else {
      IdentLenOf(s.metric, u);
    }
  }

  lemma AfterMetric(s: Sel, e: string, u: string)
    requires WfSel(s) && s.range.Some?
    requires u == if s.braces.Some? then s.g1 + PrintBraces(s.braces.value, PrintRange(s.g2, s.range, e))
                                    else PrintRange(s.g2, s.range, e)
    ensures NoIdent(u) && BlankLen(u) == if s.braces.Some? then |s.g1| else |s.g2|
    ensures s.metric == "" ==> u != "" && u[0] == '{' && IdentLen(u) == 0
  {
    hide IsIdentCont;
    assert !IsIdentCont('{') && !IsIdentCont('[') by { CharFacts(); }
    if s.braces.Some? {
      var v := PrintBraces(s.braces.value, PrintRange(s.g2, s.range, e));
      BlankLenOf(s.g1, v);
      GapNoIdent(s.g1, v);
      assert s.g1 == "" ==> u == v;
    } else {
      var v := "[" + (s.range.value + ("]" + e));
      BlankLenOf(s.g2, v);
      GapNoIdent(s.g2, v);
    }
  }

  lemma CharFacts()
    ensures !IsIdentCont('{') && !IsIdentCont('[')
  {
  }

  lemma RangeCallOf(fn: string, g2: string, s: Sel, xs: seq<Extra>, g3: string, k: string, ids: seq<Identity>)
    requires Gap(g2) && WfSel(s) && s.range.Some? && WfExtras(xs) && Gap(g3)
    ensures var w := CallText(g2, s, xs, g3, k);
            w != "" && w[0] == '(' &&
            RangeCall(w, fn, ids) == CallsOn(ScopeSel(Tight(s), ids), fn, PrintExtras(xs, g3), CallLen(g2, s, xs, g3))
  {
    hide *;
    var e := PrintExtras(xs, g3 + (")" + k));
    var w, u, a, n := CallText(g2, s, xs, g3, k), PrintSel(s, e), 1 + |g2|, |s.metric|;
    CallTextIs(g2, s, xs, g3, k);
    RangeCallFromOf(fn, g2, s, xs, g3, k, ids);
    SelStart(s, e);
    LeadCut(g2, u);
    MetricCut(s, e);
    SelFacts(s);
    SelAtIs(g2, s);
    assert w[a..a + n] == u[..n];
    assert w[a + n..] == u[n..];
    match s.braces {
      case None =>
        SelAtRest(g2, s, e);
        RestStart(s, e);
        RangeCallBare(w, fn, a, n, SelAt(g2, s), ids);
      case Some(b) =>
        var rest := SelRest(s, e);
        var pre := "(" + g2 + s.metric + s.g1;
        BracesRestCut(g2, s, e);
        Cut(pre, PrintBraces(b, rest));
        BracesStart(b, rest);
        BraceEnd(b, rest);
        BracesCut(b, rest);
        assert w[|pre|] == w[|pre|..][0];
        RangeCallBraces(w, fn, a, n, |pre|, BracesLen(b), ids);
    }
  }

  lemma RestStart(s: Sel, e: string)
    requires s.range.Some? && s.braces.None?
    ensures SelRest(s, e) != "" && SelRest(s, e)[0] == '['
  {
  }

  // ----- the whole step

  lemma NameRange(t: string, n: nat, j: nat, call: Result<Option<Emit>, Error>, ids: seq<Identity>)
    requires 0 < n <= j < |t| && j == n + BlankLen(t[n..]) && t[j] == '('
    requires !IsKeyword(Lower(t[..n])) && IsRangeFunction(Lower(t[..n]))
    requires RangeCall(t[j..], t[..n], ids) == call && (call.Ok? ==> call.value.Some?)
    ensures Word(t, n, ids) == if call.Err? then Err(call.error) else Ok(Emit(call.value.value.out, j + call.value.value.taken))
  {
    hide RangeCall, IsKeyword, IsRangeFunction, IsAggregator, AggregationFollows, BraceSelector, Selector;
  }

  function CallStep(ss: Result<seq<Sel>, Error>, fn: string, extra: string, taken: nat): Result<Emit, Error> {
    match ss
    case Err(e) => Err(e)
    case Ok(ss) => Ok(Emit(Union(Calls(fn, SelTexts(ss), extra)), taken))
  }

  lemma RangeFnFacts(e: Expr)
    requires e.RangeFn? && Wf(e)
    ensures IsIdent(e.fn) && !IsKeyword(Lower(e.fn)) && IsRangeFunction(Lower(e.fn)) && Gap(e.g1) && Gap(e.g2) && Gap(e.g3)
    ensures WfSel(e.arg) && e.arg.range.Some? && WfExtras(e.extras)
  {
    hide WfSel, WfExtras, IsKeyword, IsRangeFunction, Gap, IsIdent;
  }

  lemma CallStepIs(ss: Result<seq<Sel>, Error>, fn: string, extra: string, end: nat, before: nat)
    ensures var call := CallsOn(ss, fn, extra, end);
            (call.Ok? ==> call.value.Some?) &&
            CallStep(ss, fn, extra, before + end) ==
            if call.Err? then Err(call.error) else Ok(Emit(call.value.value.out, before + call.value.value.taken))
  {
  }

  lemma StepRangeFn(e: Expr, k: string, ids: seq<Identity>)
    requires e.RangeFn? && Wf(e)
    ensures Step(e.fn + (e.g1 + CallText(e.g2, e.arg, e.extras, e.g3, k)), ids) ==
            CallStep(ScopeSel(Tight(e.arg), ids), e.fn, PrintExtras(e.extras, e.g3),
                     |e.fn| + |e.g1| + CallLen(e.g2, e.arg, e.extras, e.g3))
  {
    hide *;
    var ss, x, end := ScopeSel(Tight(e.arg), ids), PrintExtras(e.extras, e.g3), CallLen(e.g2, e.arg, e.extras, e.g3);
    RangeFnFacts(e);
    RangeCallOf(e.fn, e.g2, e.arg, e.extras, e.g3, k, ids);
    CallStepIs(ss, e.fn, x, end, |e.fn| + |e.g1|);
    StepRangeAt(e.fn, e.g1, CallText(e.g2, e.arg, e.extras, e.g3, k), CallsOn(ss, e.fn, x, end), ids);
  }

  lemma StepRangeAt(fn: string, g1: string, w: string, call: Result<Option<Emit>, Error>, ids: seq<Identity>)
    requires IsIdent(fn) && Gap(g1) && w != "" && w[0] == '('
    requires !IsKeyword(Lower(fn)) && IsRangeFunction(Lower(fn))
    requires RangeCall(w, fn, ids) == call && (call.Ok? ==> call.value.Some?)
    ensures Step(fn + (g1 + w), ids) ==
            if call.Err? then Err(call.error) else Ok(Emit(call.value.value.out, |fn| + |g1| + call.value.value.taken))
  {
    hide *;
    var t := fn + (g1 + w);
    CalleeCut(fn, g1, w);
    StepWord(fn, g1 + w, ids);
    NameRange(t, |fn|, |fn| + |g1|, call, ids);
  }

  lemma CalleeCut(fn: string, g1: string, w: string)
    requires IsIdent(fn) && Gap(g1) && w != "" && w[0] == '('
    ensures var t := fn + (g1 + w);
            t[..|fn|] == fn && t[|fn|..] == g1 + w && t[|fn| + |g1|..] == w && t[|fn| + |g1|] == '('
    ensures BlankLen(g1 + w) == |g1| && NoIdent(g1 + w) && |fn| > 0
  {
    var t := fn + (g1 + w);
    assert BlankLen(w) == 0 && !IsIdentCont('(') && |fn| > 0;
    hide *;
    Cut(fn, g1 + w);
    Assoc(fn, g1, w);
    Cut(fn + g1, w);
    BlankLenOf(g1, w);
    GapNoIdent(g1, w);
    assert t[|fn + g1|] == w[0];
  }
}
