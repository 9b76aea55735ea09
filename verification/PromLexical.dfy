/** The scanner computes the tree transformation: on the printing of any tree of the
    fragment its output is the printing of the scoped tree. */
module PromLexical {
  import opened Text
  import opened PromLexer
  import opened PromScope
  import opened PromTree
  import opened PromScopeTree
  import opened PromTokens
  import opened PromSelectors
  import opened PromSelectStep
  import opened PromRangeStep

  /** The scoped tree printed in front of the rewriting of what follows; the first error wins. */
  function Resume(e: Result<Expr, Error>, rest: Result<string, Error>): Result<string, Error> {
    if e.Err? then Err(e.error) else if rest.Err? then rest else Ok(PrintTo(e.value, rest.value))
  }

  function ResumeArgs(a: Result<Args, Error>, rest: Result<string, Error>): Result<string, Error> {
    if a.Err? then Err(a.error) else if rest.Err? then rest else Ok(PrintArgs(a.value, rest.value))
  }

  function ResumeMod(m: Modifier, rest: Result<string, Error>): Result<string, Error> {
    if rest.Err? then rest else Ok(PrintModifier(m, rest.value))
  }

  function ResumeMods(ms: seq<Modifier>, rest: Result<string, Error>): Result<string, Error> {
    if rest.Err? then rest else Ok(PrintModifiers(ms, rest.value))
  }

  // ----- selectors

  lemma SelLenIs(s: Sel)
    requires WfSel(s)
    ensures |PrintSel(s, "")| == SelLen(s) > 0
  {
    hide PrintBraces, WfBraces, PrintRange, BracesLen;
    SelFacts(s);
    if s.braces.Some? {
      BracesCut(s.braces.value, PrintRange(s.g2, s.range, ""));
      BracesStart(s.braces.value, "");
      BracesTotal(s.braces.value, PrintRange(s.g2, s.range, ""));
    }
  }

  lemma BracesTotal(b: Braces, rest: string)
    requires WfBraces(b)
    ensures |PrintBraces(b, rest)| == BracesLen(b) + |rest|
  {
    hide *;
    BracesCut(b, rest);
  }

  lemma StepSelect(s: Sel, k: string, ids: seq<Identity>)
    requires WfSel(s) && (s.range.None? ==> Follow(k))
    ensures Step(PrintSel(s, k), ids) == Chosen(ScopeSel(s, ids), SelLen(s))
  {
    hide Step, PrintSel, ScopeSel, WfSel, Follow, NoRange, RangeLen, BracesLen, Chosen;
    if s.braces.Some? {
      if s.range.None? { FollowRange(k); }
      StepBraces(s, k, ids);
    } else {
      StepBare(s, k, ids);
    }
  }

  lemma RewriteSelect(s: Sel, k: string, ids: seq<Identity>)
    requires WfSel(s) && |ids| > 0 && (s.range.None? ==> Follow(k))
    ensures Rewrite(PrintSel(s, k), ids) == Resume(Scope(Select(s), ids), Rewrite(k, ids))
  {
    hide Step, PrintSel, ScopeSel, WfSel, Follow, SelLen, PrintTo, UnionOf, Union, Selects, SelTexts, ExprTexts, Plainly;
    StepSelect(s, k, ids);
    SelPrint(s, k);
    SelLenIs(s);
    Cut(PrintSel(s, ""), k);
    if ScopeSel(s, ids).Ok? {
      var ss := ScopeSel(s, ids).value;
      SelectsPrint(ss);
      if Rewrite(k, ids).Ok? { UnionPrint(Selects(ss), Rewrite(k, ids).value); }
    }
  }

  lemma CallTextCut(e: Expr, k: string)
    requires e.RangeFn?
    ensures PrintTo(e, k) == e.fn + (e.g1 + CallText(e.g2, e.arg, e.extras, e.g3, k))
  {
    hide PrintSel, PrintExtras;
  }

  lemma CallTextLen(e: Expr, k: string)
    requires e.RangeFn? && Wf(e)
    ensures var t, n := e.fn + (e.g1 + CallText(e.g2, e.arg, e.extras, e.g3, k)), |e.fn| + |e.g1| + CallLen(e.g2, e.arg, e.extras, e.g3);
            0 < n <= |t| && t[n..] == k
  {
    hide *;
    var w := CallText(e.g2, e.arg, e.extras, e.g3, k);
    RangeFnFacts(e);
    CallTextIs(e.g2, e.arg, e.extras, e.g3, k);
    ExtrasTail(e.extras, e.g3, k);
    var x := PrintExtras(e.extras, e.g3);
    SelPrint(e.arg, x + (")" + k));
    SelLenIs(e.arg);
    var p := PrintSel(e.arg, "");
    var head := "(" + e.g2 + p + x + ")";
    CallHead(e.g2, p, x, k);
    Cut(head, k);
    assert (e.fn + (e.g1 + w))[|e.fn| + |e.g1| + |head|..] == w[|head|..];
  }

  lemma CallHead(g2: string, p: string, x: string, k: string)
    ensures "(" + (g2 + (p + (x + (")" + k)))) == ("(" + g2 + p + x + ")") + k
  {
    Assoc("(", g2, p + (x + (")" + k)));
    Assoc("(" + g2, p, x + (")" + k));
    Assoc("(" + g2 + p, x, ")" + k);
    Assoc("(" + g2 + p + x, ")", k);
  }

  lemma RewriteRangeFn(e: Expr, k: string, ids: seq<Identity>)
    requires e.RangeFn? && Wf(e) && |ids| > 0
    ensures Rewrite(PrintTo(e, k), ids) == Resume(Scope(e, ids), Rewrite(k, ids))
  {
    hide Step, ScopeSel, Wf, PrintTo, UnionOf, Union, RangeFns, SelTexts, ExprTexts, Plainly, CallText, CallLen, Calls, PrintExtras, Tight;
    CallTextCut(e, k);
    CallTextLen(e, k);
    StepRangeFn(e, k, ids);
    if ScopeSel(Tight(e.arg), ids).Ok? {
      var ss := ScopeSel(Tight(e.arg), ids).value;
      CallsOf(e.fn, ss, e.extras, e.g3);
      if Rewrite(k, ids).Ok? { UnionPrint(RangeFns(e.fn, ss, e.extras, e.g3), Rewrite(k, ids).value); }
    }
  }

  // ----- what may follow

  lemma FollowMark(g: string, c: char, k: string)
    requires Gap(g) && (c == ')' || c == ',')
    ensures Follow(g + ([c] + k))
  {
    var t := [c] + k;
    BlankLenOf(g, t);
    GapNoIdent(g, t);
    Cut(g, t);
    assert (g + t)[0] == if g == "" then c else g[0];
    EndsMark(c, k);
  }

  lemma EndsMark(c: char, k: string)
    requires !IsIdentStart(c) && c != '(' && c != '{' && c != '['
    ensures Ends([c] + k)
  {
  }

  lemma {:induction false} FirstOf(e: Expr, k: string)
    requires Wf(e)
    ensures PrintTo(e, k) != "" && PrintTo(e, k)[0] == First(e) && !IsBlank(First(e))
  {
    hide IsKeyword, IsRangeFunction, IsAggregator, WfBy, WfSel, WfNumber, WfExtras, WfOperator, WfArgs, Gap, Inert,
         StringBody, PrintSel, PrintNumber, PrintArgs, PrintModifier, PrintModifiers, PrintExtras, PrintRange;
    match e {
      case Num(n) => FirstNumber(n, k);
      case NumWord(_) =>
      case Str(_) =>
      case Select(s) => FirstSel(s, k);
      case RangeFn(_, _, _, _, _, _) => RangeFnFacts(e);
      case Call(_, _, _) =>
      case Aggregate(_, _, _, _) =>
      case AggregateBy(_, _, _, _) =>
      case Paren(_, _, _) =>
      case Subquery(e1, g1, range) => FirstOf(e1, PrintRange(g1, Some(range), k));
      case Unary(_, _, _) =>
      case Binary(l, g1, op, mods, g2, r) => FirstOf(l, g1 + (op + PrintModifiers(mods, g2 + PrintTo(r, k))));
    }
  }

  lemma FirstNumber(n: Number, k: string)
    requires WfNumber(n)
    ensures PrintNumber(n, k) != "" && PrintNumber(n, k)[0] == First(Num(n)) && !IsBlank(First(Num(n)))
  {
    if n.whole == "" { assert PrintNumber(n, k)[0] == n.fraction[0]; }
  }

  lemma FirstSel(s: Sel, k: string)
    requires WfSel(s)
    ensures PrintSel(s, k) != "" && PrintSel(s, k)[0] == First(Select(s)) && !IsBlank(First(Select(s)))
  {
    hide PrintRange, PrintBody;
  }

  // ----- modifiers

  lemma LabelsFacts(m: Modifier)
    requires WfLabels(m)
    ensures Gap(m.gap) && IsIdent(m.word) && IsGroupingKeyword(Lower(m.word)) && Gap(m.gap2) && Inert(m.list)
  {
  }

  lemma LabelsAssoc(w: string, g2: string, list: string, o: string)
    ensures (w + (g2 + ("(" + (list + ")")))) + o == w + (g2 + ("(" + (list + (")" + o))))
  {
    Assoc(list, ")", o);
    Assoc("(", list + ")", o);
    Assoc(g2, "(" + (list + ")"), o);
    Assoc(w, g2 + ("(" + (list + ")")), o);
  }

  lemma RewriteLabelsMod(m: Modifier, k: string, ids: seq<Identity>)
    requires m.Labels? && WfLabels(m)
    ensures Rewrite(PrintModifier(m, k), ids) == ResumeMod(m, Rewrite(k, ids))
  {
    hide Rewrite, WfLabels, Gap, Inert, IsIdent, IsGroupingKeyword;
    LabelsFacts(m);
    var t := m.word + (m.gap2 + ("(" + (m.list + (")" + k))));
    RewriteGap(m.gap, t, ids);
    RewriteLabels(m.word, m.gap2, m.list, k, ids);
    if Rewrite(k, ids).Ok? { LabelsAssoc(m.word, m.gap2, m.list, Rewrite(k, ids).value); }
  }

  lemma RewritePlainMod(m: Modifier, k: string, ids: seq<Identity>)
    requires m.Plain? && WfModifier(m) && NoIdent(k)
    requires Lower(m.word) != "bool" ==> BlankLen(k) == |k| || k[BlankLen(k)] != '('
    ensures Rewrite(PrintModifier(m, k), ids) == ResumeMod(m, Rewrite(k, ids))
  {
    hide Rewrite, BlankLen, NoIdent, Gap, IsIdent, IsGroupingKeyword, IsKeyword;
    PlainKeyword(m);
    RewriteGap(m.gap, m.word + k, ids);
    RewriteKeyword(m.word, k, ids);
  }

  lemma PlainKeyword(m: Modifier)
    requires m.Plain? && WfModifier(m)
    ensures IsKeyword(Lower(m.word)) && (IsGroupingKeyword(Lower(m.word)) ==> Lower(m.word) != "bool")
  {
    var low := Lower(m.word);
    ListedIn(low, KEYWORDS);
    ListedIn(low, GROUPINGS);
    assert KEYWORDS[7] == "group_left" && KEYWORDS[8] == "group_right" && KEYWORDS[9] == "bool";
  }

  /** Text in front of which a word ends and no label list starts. */
  ghost predicate WordEnds(k: string, lists: bool) {
    NoIdent(k) && (lists ==> BlankLen(k) == |k| || k[BlankLen(k)] != '(')
  }

  /** Whether a modifier ends in a word that would take a parenthesis for its label list. */
  ghost predicate TakesList(m: Modifier) { m.Plain? && Lower(m.word) != "bool" }

  lemma ModifierStarts(m: Modifier, k: string)
    requires WfModifier(m)
    ensures WordEnds(PrintModifier(m, k), true) && PrintModifier(m, k) != "" && IsBlank(PrintModifier(m, k)[0])
  {
    hide IsKeyword, IsGroupingKeyword, Inert;
    var t := if m.Plain? then m.word + k else m.word + (m.gap2 + ("(" + (m.list + (")" + k))));
    assert IsIdent(m.word) && Gap(m.gap) && m.gap != "";
    assert t[0] == m.word[0] && !IsBlank(t[0]) && t[0] != '(';
    BlankLenOf(m.gap, t);
    assert PrintModifier(m, k) == m.gap + t;
    assert (m.gap + t)[|m.gap|] == t[0];
  }

  lemma RewriteModifier(m: Modifier, k: string, ids: seq<Identity>)
    requires WfModifier(m) && (m.Plain? ==> WordEnds(k, TakesList(m)))
    ensures Rewrite(PrintModifier(m, k), ids) == ResumeMod(m, Rewrite(k, ids))
  {
    hide Rewrite, PrintModifier, BlankLen, NoIdent, Gap, IsIdent, IsGroupingKeyword, Inert;
    if m.Plain? { RewritePlainMod(m, k, ids); } else { RewriteLabelsMod(m, k, ids); }
  }

  lemma {:induction false} RewriteModifiers(ms: seq<Modifier>, k: string, ids: seq<Identity>)
    requires forall i :: 0 <= i < |ms| ==> WfModifier(ms[i])
    requires |ms| > 0 && ms[|ms| - 1].Plain? ==> WordEnds(k, TakesList(ms[|ms| - 1]))
    ensures Rewrite(PrintModifiers(ms, k), ids) == ResumeMods(ms, Rewrite(k, ids))
    ensures |ms| > 0 ==> PrintModifiers(ms, k) != "" && IsBlank(PrintModifiers(ms, k)[0])
    ensures |ms| > 0 ==> WordEnds(PrintModifiers(ms, k), true)
  {
    hide Rewrite, PrintModifier, WfModifier, WordEnds, TakesList;
    if |ms| > 0 {
      var t := PrintModifiers(ms[1..], k);
      RewriteModifiers(ms[1..], k, ids);
      WordEndsWeaker(t, ms[0]);
      RewriteModifier(ms[0], t, ids);
      ModifierStarts(ms[0], t);
      assert |ms| == 1 ==> ms[1..] == [];
    }
  }

  lemma WordEndsWeaker(k: string, m: Modifier)
    ensures WordEnds(k, true) ==> WordEnds(k, TakesList(m))
  {
  }

  // ----- operators

  lemma SymbolMarks(op: string)
    requires op in SYMBOLS
    ensures op != "" && forall i :: 0 <= i < |op| ==> IsMark(op[i])
  {
  }

  lemma WordIsKeyword(low: string)
    requires low in WORDS
    ensures IsKeyword(low)
  {
    hide Listed;
    ListedIn(low, KEYWORDS);
    assert KEYWORDS[0] == "and" && KEYWORDS[1] == "or" && KEYWORDS[2] == "unless" && KEYWORDS[13] == "atan2";
  }

  /** A shape that tells the operator words from the grouping keywords. */
  predicate OperatorShape(s: string) { |s| in {3, 5, 6} || (|s| == 2 && s[1] == 'r') }

  lemma WordIsNoGrouping(low: string)
    requires low in WORDS
    ensures !IsGroupingKeyword(low)
  {
    WordShape(low);
    if IsGroupingKeyword(low) { GroupingShape(low); }
  }

  lemma WordShape(low: string)
    requires low in WORDS
    ensures OperatorShape(low)
  {
  }

  lemma GroupingShape(low: string)
    requires IsGroupingKeyword(low)
    ensures !OperatorShape(low)
  {
    hide Listed;
    ListedIn(low, GROUPINGS);
  }

  lemma WordFacts(op: string)
    requires Lower(op) in WORDS
    ensures IsKeyword(Lower(op)) && !IsGroupingKeyword(Lower(op)) && Lower(op) != "by" && Lower(op) != "without"
  {
    hide IsKeyword, IsGroupingKeyword;
    WordIsKeyword(Lower(op));
    WordIsNoGrouping(Lower(op));
  }

  lemma RewriteOp(op: string, k: string, ids: seq<Identity>)
    requires op in SYMBOLS || (IsIdent(op) && Lower(op) in WORDS && NoIdent(k))
    ensures Rewrite(op + k, ids) == Prepend(op, Rewrite(k, ids))
  {
    hide Rewrite, IsMark, IsKeyword, IsGroupingKeyword, IsIdent, NoIdent;
    if op in SYMBOLS {
      SymbolMarks(op);
      RewriteMarks(op, k, ids);
    } else {
      WordFacts(op);
      RewriteKeyword(op, k, ids);
    }
  }

  lemma EndsOp(op: string, k: string)
    requires op in SYMBOLS || (IsIdent(op) && Lower(op) in WORDS && NoIdent(k))
    ensures Ends(op + k) && op + k != "" && !IsBlank((op + k)[0])
    ensures op in SYMBOLS ==> NoIdent(op + k) && (op + k)[0] != '.'
  {
    if op in SYMBOLS {
      SymbolMarks(op);
      assert op + k == [op[0]] + (op[1..] + k);
      EndsMark(op[0], op[1..] + k);
    } else {
      WordFacts(op);
      EndsWord(op, k);
    }
  }

  lemma EndsWord(op: string, k: string)
    requires IsIdent(op) && NoIdent(k) && Lower(op) != "by" && Lower(op) != "without"
    ensures Ends(op + k) && op + k != "" && !IsBlank((op + k)[0])
  {
    IdentLenOf(op, k);
    assert (op + k)[0] == op[0];
  }

  /** An operator with its blanks ends whatever stands in front of it. */
  lemma FollowOp(g1: string, op: string, k: string)
    requires Gap(g1) && (op in SYMBOLS || (IsIdent(op) && Lower(op) in WORDS && NoIdent(k) && g1 != ""))
    ensures Follow(g1 + (op + k))
  {
    hide Ends;
    EndsOp(op, k);
    var t := op + k;
    BlankLenOf(g1, t);
    Cut(g1, t);
    assert (g1 + t)[0] == if g1 == "" then t[0] else g1[0];
  }

  /** The text between the operands of a binary expression. */
  function OperatorText(e: Expr, k: string): string
    requires e.Binary?
  {
    e.op + PrintModifiers(e.mods, e.g2 + k)
  }

  lemma BinaryFacts(e: Expr)
    requires e.Binary? && Wf(e)
    ensures Wf(e.left) && Wf(e.right) && WfOperator(e.g1, e.op, e.mods, e.g2, e.right)
  {
  }

  /** What follows the operator word, or the last modifier word, ends it. */
  lemma RightStarts(e: Expr, u: string)
    requires e.Binary? && WfOperator(e.g1, e.op, e.mods, e.g2, e.right)
    requires u != "" && u[0] == First(e.right) && !IsBlank(u[0])
    ensures |e.mods| > 0 && e.mods[|e.mods| - 1].Plain? ==> WordEnds(e.g2 + u, TakesList(e.mods[|e.mods| - 1]))
    ensures |e.mods| == 0 && e.op !in SYMBOLS ==> NoIdent(e.g2 + u)
  {
    hide WfModifier, IsKeyword, First;
    BlankLenOf(e.g2, u);
    assert e.g2 != "" ==> (e.g2 + u)[0] == e.g2[0] && IsBlank(e.g2[0]);
    assert (e.g2 + u)[|e.g2|] == u[0];
  }

  lemma RewriteOperator(e: Expr, u: string, ids: seq<Identity>)
    requires e.Binary? && WfOperator(e.g1, e.op, e.mods, e.g2, e.right)
    requires u != "" && u[0] == First(e.right) && !IsBlank(u[0])
    ensures Follow(e.g1 + OperatorText(e, u))
    ensures Rewrite(e.g1 + OperatorText(e, u), ids) ==
            if Rewrite(u, ids).Err? then Rewrite(u, ids) else Ok(e.g1 + OperatorText(e, Rewrite(u, ids).value))
  {
    hide Rewrite, WfModifier, WordEnds, TakesList, PrintModifiers, Follow, IsIdent, First, BlankLen;
    var v := PrintModifiers(e.mods, e.g2 + u);
    RightStarts(e, u);
    RewriteModifiers(e.mods, e.g2 + u, ids);
    NoModifiers(e.g2 + u);
    NoIdentBlank(v);
    FollowOp(e.g1, e.op, v);
    RewriteGap(e.g1, e.op + v, ids);
    RewriteOp(e.op, v, ids);
    RewriteGap(e.g2, u, ids);
  }

  lemma NoModifiers(k: string)
    ensures PrintModifiers([], k) == k
  {
  }

  lemma NoIdentBlank(v: string)
    ensures v != "" && IsBlank(v[0]) ==> NoIdent(v)
  {
  }

  // ----- calls

  /** A range function whose argument is no plain selector falls back to the generic walk. */
  lemma NotSimple(g: string, u: string, f: string, ids: seq<Identity>)
    requires Gap(g) && u != "" && !IsBlank(u[0]) && !IsIdentStart(u[0]) && u[0] != '{'
    ensures RangeCall("(" + (g + u), f, ids) == Ok(None)
  {
    var t := "(" + (g + u);
    LeadCut(g, u);
    var a := 1 + |g|;
    assert t[a] == t[a..][0];
    hide RangeCallFrom, GroupEnd, BlankLen;
  }

  /** The arguments of a call, cut into leading blanks and the rest. */
  lemma ArgsStart(f: string, a: Args, k: string, ids: seq<Identity>)
    requires WfArgs(a) && WfCallee(f, a)
    ensures IsRangeFunction(Lower(f)) ==> RangeCall("(" + PrintArgs(a, ")" + k), f, ids) == Ok(None)
  {
    hide RangeCall, IsRangeFunction, IsKeyword, First, Wf, PrintTo, IsIdentStart, Gap;
    if IsRangeFunction(Lower(f)) {
      CloseFacts();
      match a {
        case NoArgs(g) =>
          NotSimple(g, ")" + k, f, ids);
        case LastArg(g, e, h) =>
          FirstOf(e, h + (")" + k));
          NotSimple(g, PrintTo(e, h + (")" + k)), f, ids);
        case MoreArgs(g, e, h, rest) =>
          FirstOf(e, h + ("," + PrintArgs(rest, ")" + k)));
          NotSimple(g, PrintTo(e, h + ("," + PrintArgs(rest, ")" + k))), f, ids);
      }
    }
  }

  lemma CloseFacts()
    ensures !IsBlank(')') && !IsIdentStart(')') && IsMark(')') && IsMark('(') && IsMark(',')
  {
  }

  lemma CalleeFacts(f: string, a: Args)
    requires WfCallee(f, a)
    ensures IsIdent(f) && !IsKeyword(Lower(f))
  {
    hide IsKeyword, IsRangeFunction, First, IsIdentStart;
  }

  /** A call's name, blanks and parenthesis. */
  lemma RewriteCallHead(f: string, g1: string, a: Args, k: string, ids: seq<Identity>)
    requires Gap(g1) && WfArgs(a) && WfCallee(f, a)
    ensures Rewrite(f + (g1 + ("(" + PrintArgs(a, ")" + k))), ids) ==
            Prepend(f, Prepend(g1, Prepend("(", Rewrite(PrintArgs(a, ")" + k), ids))))
  {
    hide *;
    var u := PrintArgs(a, ")" + k);
    CalleeFacts(f, a);
    ArgsStart(f, a, k, ids);
    RewriteCallee(f, g1, "(" + u, ids);
    RewriteGap(g1, "(" + u, ids);
    CloseFacts();
    RewriteMark('(', u, ids);
  }

  lemma AggregateFacts(e: Expr)
    requires e.Aggregate? && Wf(e)
    ensures IsIdent(e.name) && !IsKeyword(Lower(e.name)) && IsAggregator(Lower(e.name))
    ensures WfLabels(e.grouping) && e.grouping.Labels? && Lower(e.grouping.word) in ["by", "without"] && e.grouping.gap != ""
    ensures Gap(e.g1) && WfArgs(e.args)
  {
    hide IsKeyword, IsAggregator, WfArgs, Gap, IsIdent, WfLabels;
    assert WfBy(e.grouping);
    assert e.grouping.Labels? by { LabelsKind(e.grouping); }
  }

  lemma LabelsKind(m: Modifier)
    requires WfLabels(m)
    ensures m.Labels?
  {
  }

  lemma ModifierPrint(m: Modifier, k: string)
    requires m.Labels?
    ensures PrintModifier(m, k) == m.gap + (m.word + (m.gap2 + ("(" + (m.list + (")" + k)))))
  {
  }

  lemma RewriteAggregateHead(e: Expr, u: string, ids: seq<Identity>)
    requires e.Aggregate? && Wf(e)
    ensures Rewrite(e.name + PrintModifier(e.grouping, e.g1 + ("(" + u)), ids) ==
            Prepend(e.name, ResumeMod(e.grouping, Prepend(e.g1, Prepend("(", Rewrite(u, ids)))))
  {
    hide *;
    var m, t := e.grouping, e.g1 + ("(" + u);
    AggregateFacts(e);
    LabelsFacts(m);
    ModifierPrint(m, t);
    RewriteAggregator(e.name, m.gap, m.word, m.gap2, "(" + (m.list + (")" + t)), ids);
    RewriteLabelsMod(m, t, ids);
    RewriteGap(e.g1, "(" + u, ids);
    CloseFacts();
    RewriteMark('(', u, ids);
  }

  // ----- one case per construct, the operands' rewriting given

  ghost predicate Rewrites(e: Expr, k: string, ids: seq<Identity>)
    requires |ids| > 0
  {
    Rewrite(PrintTo(e, k), ids) == Resume(Scope(e, ids), Rewrite(k, ids))
  }

  ghost predicate RewritesArgs(a: Args, k: string, ids: seq<Identity>)
    requires |ids| > 0
  {
    Rewrite(PrintArgs(a, k), ids) == ResumeArgs(ScopeArgs(a, ids), Rewrite(k, ids))
  }

  lemma CaseParen(g1: string, e: Expr, g2: string, k: string, ids: seq<Identity>)
    requires |ids| > 0 && Gap(g1) && Gap(g2) && Rewrites(e, g2 + (")" + k), ids)
    ensures Rewrites(Paren(g1, e, g2), k, ids)
  {
    hide Rewrite, Gap, IsMark;
    var u := PrintTo(e, g2 + (")" + k));
    CloseFacts();
    RewriteMark('(', g1 + u, ids);
    RewriteGap(g1, u, ids);
    RewriteGap(g2, ")" + k, ids);
    RewriteMark(')', k, ids);
  }

  lemma CaseUnary(sign: char, g1: string, e: Expr, k: string, ids: seq<Identity>)
    requires |ids| > 0 && sign in "+-" && Gap(g1) && Rewrites(e, k, ids)
    ensures Rewrites(Unary(sign, g1, e), k, ids)
  {
    hide Rewrite, Gap;
    RewriteMark(sign, g1 + PrintTo(e, k), ids);
    RewriteGap(g1, PrintTo(e, k), ids);
  }

  lemma RewriteRange(g: string, range: string, k: string, ids: seq<Identity>)
    requires Gap(g) && Inert(range)
    ensures Rewrite(PrintRange(g, Some(range), k), ids) ==
            if Rewrite(k, ids).Err? then Rewrite(k, ids) else Ok(PrintRange(g, Some(range), Rewrite(k, ids).value))
  {
    hide Rewrite, Gap, Inert;
    RewriteGap(g, "[" + (range + ("]" + k)), ids);
    RewriteBracket(range, k, ids);
    if Rewrite(k, ids).Ok? {
      Assoc(range, "]", Rewrite(k, ids).value);
      Assoc("[", range + "]", Rewrite(k, ids).value);
    }
  }

  lemma CaseSubquery(e: Expr, g1: string, range: string, k: string, ids: seq<Identity>)
    requires |ids| > 0 && Gap(g1) && Inert(range) && Rewrites(e, PrintRange(g1, Some(range), k), ids)
    ensures Rewrites(Subquery(e, g1, range), k, ids)
  {
    hide Rewrite, Gap, Inert, PrintRange;
    RewriteRange(g1, range, k, ids);
  }

  lemma CaseBinary(e: Expr, k: string, ids: seq<Identity>)
    requires |ids| > 0 && e.Binary? && Wf(e)
    requires Rewrites(e.right, k, ids) && Rewrites(e.left, e.g1 + OperatorText(e, PrintTo(e.right, k)), ids)
    ensures Rewrites(e, k, ids)
  {
    hide Rewrite, Wf, WfOperator, First, IsBlank, PrintModifiers;
    var u := PrintTo(e.right, k);
    BinaryFacts(e);
    FirstOf(e.right, k);
    RewriteOperator(e, u, ids);
  }

  lemma CaseCall(f: string, g1: string, a: Args, k: string, ids: seq<Identity>)
    requires |ids| > 0 && Gap(g1) && WfArgs(a) && WfCallee(f, a) && RewritesArgs(a, ")" + k, ids)
    ensures Rewrites(Call(f, g1, a), k, ids)
  {
    hide Rewrite, Gap, WfArgs, WfCallee, IsMark, PrintArgs;
    RewriteCallHead(f, g1, a, k, ids);
    CloseFacts();
    RewriteMark(')', k, ids);
  }

  lemma CaseAggregateBy(f: string, g1: string, a: Args, m: Modifier, k: string, ids: seq<Identity>)
    requires |ids| > 0 && Gap(g1) && WfArgs(a) && WfCallee(f, a) && WfLabels(m)
    requires RewritesArgs(a, ")" + PrintModifier(m, k), ids)
    ensures Rewrites(AggregateBy(f, g1, a, m), k, ids)
  {
    hide Rewrite, Gap, WfArgs, WfCallee, WfLabels, IsMark, PrintArgs, PrintModifier;
    RewriteCallHead(f, g1, a, PrintModifier(m, k), ids);
    CloseFacts();
    RewriteMark(')', PrintModifier(m, k), ids);
    LabelsKind(m);
    RewriteLabelsMod(m, k, ids);
  }

  lemma CaseAggregate(e: Expr, k: string, ids: seq<Identity>)
    requires |ids| > 0 && e.Aggregate? && Wf(e) && RewritesArgs(e.args, ")" + k, ids)
    ensures Rewrites(e, k, ids)
  {
    hide Rewrite, Wf, IsMark, PrintArgs, PrintModifier;
    RewriteAggregateHead(e, PrintArgs(e.args, ")" + k), ids);
    CloseFacts();
    RewriteMark(')', k, ids);
  }

  lemma CaseLastArg(g: string, e: Expr, h: string, k: string, ids: seq<Identity>)
    requires |ids| > 0 && Gap(g) && Gap(h) && Rewrites(e, h + k, ids)
    ensures RewritesArgs(LastArg(g, e, h), k, ids)
  {
    hide Rewrite, Gap;
    RewriteGap(g, PrintTo(e, h + k), ids);
    RewriteGap(h, k, ids);
  }

  lemma CaseMoreArgs(g: string, e: Expr, h: string, rest: Args, k: string, ids: seq<Identity>)
    requires |ids| > 0 && Gap(g) && Gap(h) && Rewrites(e, h + ("," + PrintArgs(rest, k)), ids) && RewritesArgs(rest, k, ids)
    ensures RewritesArgs(MoreArgs(g, e, h, rest), k, ids)
  {
    hide Rewrite, Gap, IsMark;
    var u := PrintArgs(rest, k);
    RewriteGap(g, PrintTo(e, h + ("," + u)), ids);
    RewriteGap(h, "," + u, ids);
    CloseFacts();
    RewriteMark(',', u, ids);
  }

  lemma CaseLeaf(e: Expr, k: string, ids: seq<Identity>)
    requires |ids| > 0 && Wf(e) && (e.Num? || e.NumWord? || e.Str?) && (Closed(e) || Follow(k))
    ensures Rewrites(e, k, ids)
  {
    hide Rewrite, Ends, WfNumber, WfQuoted, BlankLen, IsKeyword, PrintNumber, PrintQuoted;
    match e {
      case Num(n) =>
        RewriteNumber(n, k, ids);
        if Rewrite(k, ids).Ok? { NumberPrint(n, Rewrite(k, ids).value); }
      case NumWord(w) =>
        NumWordKeyword(w);
        RewriteKeyword(w, k, ids);
      case Str(s) =>
        RewriteQuoted(s, k, ids);
        if Rewrite(k, ids).Ok? { QuotedPrint(s, Rewrite(k, ids).value); }
    }
  }

  lemma QuotedPrint(s: Quoted, k: string)
    ensures PrintQuoted(s, k) == PrintQuoted(s, "") + k
  {
    Assoc(s.body, [s.q], k);
    assert [s.q] + "" == [s.q];
    Assoc([s.q], s.body + [s.q], k);
  }

  lemma NumWordKeyword(w: string)
    requires Lower(w) in ["inf", "nan"]
    ensures IsKeyword(Lower(w)) && !IsGroupingKeyword(Lower(w))
  {
    hide Listed;
    ListedIn(Lower(w), KEYWORDS);
    ListedIn(Lower(w), GROUPINGS);
    assert KEYWORDS[11] == "inf" && KEYWORDS[12] == "nan";
  }

  // ----- the theorem

  lemma {:induction false} RewriteArgsOf(a: Args, k: string, ids: seq<Identity>)
    requires |ids| > 0 && WfArgs(a)
    ensures RewritesArgs(a, ")" + k, ids)
    decreases a
  {
    hide Rewrites, Follow, Rewrite, Gap, PrintTo;
    match a {
      case NoArgs(g) =>
        RewriteGap(g, ")" + k, ids);
      case LastArg(g, e, h) =>
        FollowMark(h, ')', k);
        RewriteOf(e, h + (")" + k), ids);
        CaseLastArg(g, e, h, ")" + k, ids);
      case MoreArgs(g, e, h, rest) =>
        FollowMark(h, ',', PrintArgs(rest, ")" + k));
        RewriteOf(e, h + ("," + PrintArgs(rest, ")" + k)), ids);
        RewriteArgsOf(rest, k, ids);
        CaseMoreArgs(g, e, h, rest, ")" + k, ids);
    }
  }

  /** In front of any text that does not prolong it, a tree's printing is rewritten to the
      printing of the scoped tree. */
  lemma {:induction false} RewriteOf(e: Expr, k: string, ids: seq<Identity>)
    requires |ids| > 0 && Wf(e) && (Closed(e) || Follow(k))
    ensures Rewrites(e, k, ids)
    decreases e
  {
    hide RewritesArgs, Follow, Rewrite, PrintTo, WfOperator, WfCallee, WfLabels, WfSel, WfNumber, Gap, Inert, Scope, Resume;
    match e {
      case Num(_) => CaseLeaf(e, k, ids);
      case NumWord(_) => CaseLeaf(e, k, ids);
      case Str(_) => CaseLeaf(e, k, ids);
      case Select(s) =>
        RewriteSelect(s, k, ids);
        SelectPrintTo(s, k);
      case RangeFn(_, _, _, _, _, _) => RewriteRangeFn(e, k, ids);
      case Call(f, g1, a) =>
        RewriteArgsOf(a, k, ids);
        CaseCall(f, g1, a, k, ids);
      case Aggregate(_, _, _, a) =>
        RewriteArgsOf(a, k, ids);
        CaseAggregate(e, k, ids);
      case AggregateBy(f, g1, a, m) =>
        RewriteArgsOf(a, PrintModifier(m, k), ids);
        CaseAggregateBy(f, g1, a, m, k, ids);
      case Paren(g1, e1, g2) =>
        FollowMark(g2, ')', k);
        RewriteOf(e1, g2 + (")" + k), ids);
        CaseParen(g1, e1, g2, k, ids);
      case Subquery(e1, g1, range) =>
        RewriteOf(e1, PrintRange(g1, Some(range), k), ids);
        CaseSubquery(e1, g1, range, k, ids);
      case Unary(sign, g1, e1) =>
        RewriteOf(e1, k, ids);
        CaseUnary(sign, g1, e1, k, ids);
      case Binary(l, g1, op, mods, g2, r) =>
        RewriteOf(r, k, ids);
        FirstOf(r, k);
        RewriteOperator(e, PrintTo(r, k), ids);
        RewriteOf(l, g1 + OperatorText(e, PrintTo(r, k)), ids);
        CaseBinary(e, k, ids);
    }
  }

  lemma SelectPrintTo(s: Sel, k: string)
    ensures PrintTo(Select(s), k) == PrintSel(s, k)
  {
    hide PrintSel;
  }

  /** The scanner's output on a query of the fragment is the printing of the scoped tree,
      and it fails exactly when scoping the tree fails, with the same error. */
  lemma ScannerComputesScope(e: Expr, ids: seq<Identity>)
    requires |ids| > 0 && Wf(e)
    ensures Rewrite(Print(e), ids) ==
            match Scope(e, ids)
            case Ok(scoped) => Ok(Print(scoped))
            case Err(error) => Err(error)
  {
    hide Scope, Wf, PrintTo;
    FollowNothing();
    RewriteOf(e, "", ids);
    RewriteNothing(ids);
  }

  lemma FollowNothing()
    ensures Follow("")
  {
  }

  lemma RewriteNothing(ids: seq<Identity>)
    ensures Rewrite("", ids) == Ok("")
  {
  }
}
