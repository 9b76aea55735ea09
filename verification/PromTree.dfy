/** The PromQL fragment the scanner is meant for, as trees with their spelling.

    A tree keeps every blank of the query it stands for, so each query of the
    fragment is the printing of the tree that was read. It may be the printing of
    others as well, since the trees know no precedence of operators. Printing takes
    the text that follows, which spares every proof the associativity of `+`. */
module PromTree {
  import opened Text
  import opened PromLexer
  import opened PromScope

  /** `q body q`. */
  datatype Quoted = Quoted(q: char, body: string)

  /** `name g1 op g2 value` */
  datatype Matcher = Matcher(name: string, g1: string, op: string, g2: string, value: Quoted)

  /** Matchers with the blanks around each comma; a comma may trail. */
  datatype Matchers =
    | Last(m: Matcher, trailing: Option<string>)
    | More(m: Matcher, before: string, after: string, rest: Matchers)

  /** `{ lead matchers trail }` or `{ lead }` */
  datatype Braces = Braces(lead: string, ms: Option<Matchers>, trail: string)

  /** `metric g1 {..} g2 [range]`; braces and range are optional, the metric may be empty. */
  datatype Sel = Sel(metric: string, g1: string, braces: Option<Braces>, g2: string, range: Option<string>)

  /** Digits, then a fraction with its point, then an exponent with its mark; either may be empty. */
  datatype Number = Number(whole: string, fraction: string, exponent: string)

  /** Literal arguments after a range selector: `before , after number`. */
  datatype Extra = Extra(before: string, after: string, num: Number)

  /** What may stand between a binary operator and its right operand. */
  datatype Modifier =
    | Plain(gap: string, word: string)                             // bool, or a bare group_left
    | Labels(gap: string, word: string, gap2: string, list: string)  // on (a, b)

  datatype Args =
    | NoArgs(blank: string)
    | LastArg(before: string, e: Expr, after: string)
    | MoreArgs(before: string, e: Expr, after: string, rest: Args)

  datatype Expr =
    | Num(num: Number)
    | NumWord(word: string)                                        // Inf, NaN
    | Str(str: Quoted)
    | Select(sel: Sel)
    | RangeFn(fn: string, g1: string, g2: string, arg: Sel, extras: seq<Extra>, g3: string)
    | Call(name: string, g1: string, args: Args)
    | Aggregate(name: string, grouping: Modifier, g1: string, args: Args)      // sum by (a) (x)
    | AggregateBy(name: string, g1: string, args: Args, grouping: Modifier)    // sum (x) by (a)
    | Paren(before: string, e: Expr, after: string)
    | Subquery(e: Expr, g1: string, range: string)
    | Unary(sign: char, g1: string, e: Expr)
    | Binary(left: Expr, g1: string, op: string, mods: seq<Modifier>, g2: string, right: Expr)

  // ----- printing, in front of `k`

  function PrintQuoted(s: Quoted, k: string): string {
    [s.q] + (s.body + ([s.q] + k))
  }

  function PrintMatcher(m: Matcher, k: string): string {
    m.name + (m.g1 + (m.op + (m.g2 + PrintQuoted(m.value, k))))
  }

  function PrintMatchers(ms: Matchers, k: string): string {
    match ms
    case Last(m, None) => PrintMatcher(m, k)
    case Last(m, Some(g)) => PrintMatcher(m, g + ("," + k))
    case More(m, before, after, rest) => PrintMatcher(m, before + ("," + (after + PrintMatchers(rest, k))))
  }

  function PrintBody(b: Braces, k: string): string {
    match b.ms
    case None => b.lead + (b.trail + k)
    case Some(ms) => b.lead + PrintMatchers(ms, b.trail + k)
  }

  function PrintBraces(b: Braces, k: string): string {
    "{" + PrintBody(b, "}" + k)
  }

  function PrintRange(g: string, range: Option<string>, k: string): string {
    match range
    case None => k
    case Some(text) => g + ("[" + (text + ("]" + k)))
  }

  function PrintSel(s: Sel, k: string): string {
    match s.braces
    case None => s.metric + PrintRange(s.g2, s.range, k)
    case Some(b) => s.metric + (s.g1 + PrintBraces(b, PrintRange(s.g2, s.range, k)))
  }

  function PrintNumber(n: Number, k: string): string {
    n.whole + (n.fraction + (n.exponent + k))
  }

  function PrintExtras(xs: seq<Extra>, k: string): string {
    if |xs| == 0 then k
    else xs[0].before + ("," + (xs[0].after + PrintNumber(xs[0].num, PrintExtras(xs[1..], k))))
  }

  function PrintModifier(m: Modifier, k: string): string {
    match m
    case Plain(g, word) => g + (word + k)
    case Labels(g, word, g2, list) => g + (word + (g2 + ("(" + (list + (")" + k)))))
  }

  function PrintModifiers(ms: seq<Modifier>, k: string): string {
    if |ms| == 0 then k else PrintModifier(ms[0], PrintModifiers(ms[1..], k))
  }

  function PrintArgs(a: Args, k: string): string {
    match a
    case NoArgs(g) => g + k
    case LastArg(g, e, h) => g + PrintTo(e, h + k)
    case MoreArgs(g, e, h, rest) => g + PrintTo(e, h + ("," + PrintArgs(rest, k)))
  }

  function PrintTo(e: Expr, k: string): string {
    match e
    case Num(n) => PrintNumber(n, k)
    case NumWord(w) => w + k
    case Str(s) => PrintQuoted(s, k)
    case Select(s) => PrintSel(s, k)
    case RangeFn(fn, g1, g2, s, xs, g3) => fn + (g1 + ("(" + (g2 + PrintSel(s, PrintExtras(xs, g3 + (")" + k))))))
    case Call(f, g1, args) => f + (g1 + ("(" + PrintArgs(args, ")" + k)))
    case Aggregate(f, grp, g1, args) => f + PrintModifier(grp, g1 + ("(" + PrintArgs(args, ")" + k)))
    case AggregateBy(f, g1, args, grp) => f + (g1 + ("(" + PrintArgs(args, ")" + PrintModifier(grp, k))))
    case Paren(g1, e, g2) => "(" + (g1 + PrintTo(e, g2 + (")" + k)))
    case Subquery(e, g1, range) => PrintTo(e, PrintRange(g1, Some(range), k))
    case Unary(op, g1, e) => [op] + (g1 + PrintTo(e, k))
    case Binary(l, g1, op, mods, g2, r) => PrintTo(l, g1 + (op + PrintModifiers(mods, g2 + PrintTo(r, k))))
  }

  function Print(e: Expr): string { PrintTo(e, "") }

  // ----- the fragment

  predicate Gap(g: string) { forall k :: 0 <= k < |g| ==> IsBlank(g[k]) }

  predicate IsIdent(s: string) {
    s != "" && IsIdentStart(s[0]) && forall k :: 1 <= k < |s| ==> IsIdentCont(s[k])
  }

  /** An identifier the scanner does not take for a keyword. */
  predicate IsName(s: string) { IsIdent(s) && !IsKeyword(Lower(s)) }

  /** Letters, digits and underscores, as in a label name. */
  predicate IsLabel(s: string) {
    s != "" && forall k :: 0 <= k < |s| ==> IsIdentCont(s[k])
  }

  predicate Digits(s: string) { forall k :: 0 <= k < |s| ==> IsDigit(s[k]) }

  /** The body of a string: no bare quote, and no backslash without its byte. */
  predicate StringBody(s: string, q: char) {
    s == "" ||
    (if s[0] == '\\' then |s| > 1 && StringBody(s[2..], q) else s[0] != q && StringBody(s[1..], q))
  }

  predicate WfQuoted(s: Quoted) { IsQuote(s.q) && StringBody(s.body, s.q) }

  predicate WfMatcher(m: Matcher) {
    IsLabel(m.name) && Gap(m.g1) && m.op in OPERATORS && Gap(m.g2) && WfQuoted(m.value)
  }

  predicate WfMatchers(ms: Matchers) {
    WfMatcher(ms.m) &&
    match ms
    case Last(_, t) => t.None? || Gap(t.value)
    case More(_, before, after, rest) => Gap(before) && Gap(after) && WfMatchers(rest)
  }

  predicate WfBraces(b: Braces) {
    Gap(b.lead) && Gap(b.trail) && (b.ms.None? || WfMatchers(b.ms.value))
  }

  /** Text with no mark the scanner reacts to: no string, no group of any kind. */
  predicate Inert(s: string) {
    forall k :: 0 <= k < |s| ==> s[k] !in "\"'()[]{}"
  }

  predicate WfSel(s: Sel) {
    && Gap(s.g1) && Gap(s.g2)
    && (s.metric == "" || IsName(s.metric))
    && (match s.braces
        case None => s.metric != "" && s.g1 == ""
        case Some(b) => WfBraces(b) && (s.metric == "" ==> s.g1 == ""))
    && (s.range.None? || Inert(s.range.value))
    && (s.range.None? ==> s.g2 == "")
  }

  predicate IsFraction(s: string) {
    s == "" || (s[0] == '.' && Digits(s[1..]))
  }

  predicate IsExponent(s: string) {
    s == "" ||
    ((s[0] == 'e' || s[0] == 'E') && |s| > 1 &&
     var sign := if s[1] == '+' || s[1] == '-' then 1 else 0;
     |s| > 1 + sign && Digits(s[1 + sign..]))
  }

  predicate WfNumber(n: Number) {
    Digits(n.whole) && IsFraction(n.fraction) && IsExponent(n.exponent) && (n.whole != "" || |n.fraction| > 1)
  }

  predicate WfExtras(xs: seq<Extra>) {
    forall k :: 0 <= k < |xs| ==> Gap(xs[k].before) && Gap(xs[k].after) && WfNumber(xs[k].num)
  }

  predicate WfLabels(m: Modifier) {
    m.Labels? && Gap(m.gap) && IsIdent(m.word) && IsGroupingKeyword(Lower(m.word)) && Gap(m.gap2) && Inert(m.list)
  }

  predicate WfBy(m: Modifier) {
    WfLabels(m) && Lower(m.word) in ["by", "without"]
  }

  predicate WfModifier(m: Modifier) {
    match m
    case Plain(g, w) => Gap(g) && g != "" && IsIdent(w) && Lower(w) in ["bool", "group_left", "group_right"]
    case Labels(g, _, _, _) => WfLabels(m) && g != "" && !WfBy(m)
  }

  const SYMBOLS := ["+", "-", "*", "/", "%", "^", "==", "!=", "<=", ">=", "<", ">"]
  const WORDS := ["and", "or", "unless", "atan2"]

  function Head(s: string): char { if s == "" then ' ' else s[0] }

  /** The first byte of the printing. */
  function First(e: Expr): char {
    match e
    case Num(n) => if n.whole == "" then '.' else Head(n.whole)
    case NumWord(w) => Head(w)
    case Str(s) => s.q
    case Select(s) => if s.metric == "" then '{' else s.metric[0]
    case RangeFn(fn, _, _, _, _, _) => Head(fn)
    case Call(f, _, _) => Head(f)
    case Aggregate(f, _, _, _) => Head(f)
    case AggregateBy(f, _, _, _) => Head(f)
    case Paren(_, _, _) => '('
    case Subquery(e, _, _) => First(e)
    case Unary(op, _, _) => op
    case Binary(l, _, _, _, _, _) => First(l)
  }

  /** A range function outside `RangeFn` is one whose argument is no selector: it may
      not start with a name or a brace. */
  predicate WfCallee(f: string, a: Args) {
    && IsName(f)
    && (IsRangeFunction(Lower(f)) ==>
        a.NoArgs? || (!IsIdentStart(First(a.e)) && First(a.e) != '{'))
  }

  /** A word needs a blank after it. */
  predicate Spelled(g1: string, op: string, mods: seq<Modifier>, g2: string) {
    && Gap(g1) && Gap(g2)
    && (op in SYMBOLS || (IsIdent(op) && Lower(op) in WORDS && g1 != ""))
    && (forall k :: 0 <= k < |mods| ==> WfModifier(mods[k]))
    && (|mods| == 0 && op !in SYMBOLS ==> g2 != "")
    && (|mods| > 0 && mods[|mods| - 1].Plain? ==> g2 != "")
  }

  /** The modifiers end in a bare `group_left` or `group_right`. */
  predicate EndsBare(mods: seq<Modifier>) {
    |mods| > 0 && mods[|mods| - 1].Plain? && Lower(mods[|mods| - 1].word) != "bool"
  }

  /** A bare `group_left` must not meet a parenthesis, which would be read as its label list. */
  predicate WfOperator(g1: string, op: string, mods: seq<Modifier>, g2: string, right: Expr) {
    Spelled(g1, op, mods, g2) && (EndsBare(mods) ==> First(right) != '(')
  }

  predicate WfArgs(a: Args) {
    match a
    case NoArgs(g) => Gap(g)
    case LastArg(g, e, h) => Gap(g) && Gap(h) && Wf(e)
    case MoreArgs(g, e, h, rest) => Gap(g) && Gap(h) && Wf(e) && WfArgs(rest)
  }

  predicate Wf(e: Expr) {
    match e
    case Num(n) => WfNumber(n)
    case NumWord(w) => IsIdent(w) && Lower(w) in ["inf", "nan"]
    case Str(s) => WfQuoted(s)
    case Select(s) => WfSel(s)
    case RangeFn(fn, g1, g2, s, xs, g3) =>
      && IsName(fn) && IsRangeFunction(Lower(fn)) && Gap(g1) && Gap(g2) && Gap(g3)
      && WfSel(s) && s.range.Some? && WfExtras(xs)
    case Call(f, g1, args) => Gap(g1) && WfArgs(args) && WfCallee(f, args)
    case Aggregate(f, grp, g1, args) =>
      && IsName(f) && IsAggregator(Lower(f)) && WfBy(grp) && grp.gap != "" && Gap(g1) && WfArgs(args)
    case AggregateBy(f, g1, args, grp) => Gap(g1) && WfArgs(args) && WfCallee(f, args) && WfBy(grp)
    case Paren(g1, e, g2) => Gap(g1) && Gap(g2) && Wf(e)
    case Subquery(e, g1, range) => Wf(e) && Closed(e) && Gap(g1) && Inert(range)
    case Unary(op, g1, e) => op in "+-" && Gap(g1) && Wf(e)
    case Binary(l, g1, op, mods, g2, r) => Wf(l) && Wf(r) && WfOperator(g1, op, mods, g2, r)
  }

  /** The printing ends with a closing mark, so any text may follow it. */
  predicate Closed(e: Expr) {
    match e
    case Num(_) => false
    case NumWord(_) => false
    case Str(_) => true
    case Select(s) => s.range.Some?
    case RangeFn(_, _, _, _, _, _) => true
    case Call(_, _, _) => true
    case Aggregate(_, _, _, _) => true
    case AggregateBy(_, _, _, _) => true
    case Paren(_, _, _) => true
    case Subquery(_, _, _) => true
    case Unary(_, _, e) => Closed(e)
    case Binary(_, _, _, _, _, r) => Closed(r)
  }
}
