/** The PromQL scoping rewriter: what it emits for the text that is left, as functions. */
module PromScope {
  import opened Text
  import opened PromLexer

  datatype Identity = Identity(namespace: string, name: string)

  const MAX_UNION := 256

  const KEYWORDS := ["and", "or", "unless", "by", "without", "on", "ignoring", "group_left", "group_right",
                     "bool", "offset", "inf", "nan", "atan2"]

  const AGGREGATORS := ["sum", "min", "max", "avg", "group", "stddev", "stdvar", "count", "count_values",
                        "bottomk", "topk", "quantile"]

  const RANGE_FUNCTIONS := ["increase", "rate", "irate", "delta", "idelta", "deriv", "resets", "changes",
                            "predict_linear", "avg_over_time", "min_over_time", "max_over_time",
                            "sum_over_time", "count_over_time", "stddev_over_time", "stdvar_over_time",
                            "last_over_time", "present_over_time", "absent_over_time", "holt_winters"]

  const GROUPINGS := ["by", "without", "on", "ignoring", "group_left", "group_right"]

  predicate Listed(low: string, table: seq<string>) {
    |table| > 0 && (low == table[0] || Listed(low, table[1..]))
  }

  predicate IsKeyword(low: string) { Listed(low, KEYWORDS) }
  predicate IsAggregator(low: string) { Listed(low, AGGREGATORS) }
  predicate IsRangeFunction(low: string) { Listed(low, RANGE_FUNCTIONS) }
  predicate IsGroupingKeyword(low: string) { Listed(low, GROUPINGS) }

  lemma {:induction false} ListedIn(low: string, table: seq<string>)
    ensures Listed(low, table) <==> low in table
  {
    if |table| > 0 {
      assert table == [table[0]] + table[1..];
      ListedIn(low, table[1..]);
    }
  }

  lemma GroupingIsKeyword(low: string)
    ensures IsGroupingKeyword(low) ==> IsKeyword(low)
  {
    ListedIn(low, GROUPINGS);
    ListedIn(low, KEYWORDS);
    assert KEYWORDS[3..9] == GROUPINGS;
  }

  // ----- label matchers

  /** Matchers are cut at the commas outside strings. */
  const LIST := Group(',', ',', false)

  /** The matchers of `cur + s`, where the scanner has taken in `cur` and is in state `l`. */
  function SplitFrom(cur: string, l: Lex, s: string): Result<seq<string>, Error>
    decreases |s|
  {
    match CloseEnd(l, s, LIST)
    case Some(n) => Cons(Trim(cur + s[..n - 1]), SplitFrom("", PLAIN, s[n..]))
    case None =>
      if Run(l, s, LIST).quote != NUL then Err(UnterminatedMatcher)
      else if Trim(cur + s) == "" then Ok([])
      else Ok([Trim(cur + s)])
  }

  function Cons(part: string, rest: Result<seq<string>, Error>): Result<seq<string>, Error> {
    if rest.Ok? then Ok([part] + rest.value) else rest
  }

  function SplitMatchers(inner: string): Result<seq<string>, Error> {
    SplitFrom("", PLAIN, Trim(inner))
  }

  datatype Parsed = Parsed(key: string, op: string, val: string)

  function UnquoteProm(s: string): string {
    var t := Trim(s);
    if |t| >= 2 && IsQuote(t[0]) && t[|t| - 1] == t[0] then t[1..|t| - 1] else t
  }

  const OPERATORS := ["=~", "!~", "!=", "="]

  /** The first operator that occurs anywhere past the first byte decides, wherever it stands. */
  function ParseWith(m: string, ops: seq<string>): Option<Parsed> {
    if |ops| == 0 then None
    else
      var at := Index(m, ops[0]);
      if at.Some? && at.value > 0 then
        var key := Trim(m[..at.value]);
        if key == "" then None
        else Some(Parsed(key, ops[0], UnquoteProm(m[at.value + |ops[0]|..])))
      else ParseWith(m, ops[1..])
  }

  function ParseMatcher(m: string): Option<Parsed> {
    ParseWith(Trim(m), OPERATORS)
  }

  predicate IsIdentityKey(key: string) { key == "waf_namespace" || key == "waf_name" }

  /** The last equality on each identity label wins; any other operator on one is an error. */
  function IdentityOf(ms: seq<string>, found: Identity): Result<Identity, Error> {
    if |ms| == 0 then Ok(found)
    else
      match ParseMatcher(ms[0])
      case None => IdentityOf(ms[1..], found)
      case Some(p) =>
        if p.op != "=" then
          if IsIdentityKey(p.key) then Err(NotEquality(p.key)) else IdentityOf(ms[1..], found)
        else if p.key == "waf_namespace" then IdentityOf(ms[1..], found.(namespace := p.val))
        else if p.key == "waf_name" then IdentityOf(ms[1..], found.(name := p.val))
        else IdentityOf(ms[1..], found)
  }

  /** An empty part of the wanted identity admits any WAF. */
  predicate Admits(want: Identity, id: Identity) {
    (want.namespace == "" || want.namespace == id.namespace) && (want.name == "" || want.name == id.name)
  }

  function RejectForeign(inner: string, ids: seq<Identity>): Option<Error> {
    match SplitMatchers(inner)
    case Err(e) => Some(e)
    case Ok(ms) =>
      match IdentityOf(ms, Identity("", ""))
      case Err(e) => Some(e)
      case Ok(want) =>
        if want == Identity("", "") || exists k :: 0 <= k < |ids| && Admits(want, ids[k]) then None
        else Some(EscapesScope)
  }

  predicate Stripped(m: string) {
    var p := ParseMatcher(m);
    p.Some? && IsIdentityKey(p.value.key)
  }

  function Kept(ms: seq<string>): seq<string> {
    if |ms| == 0 then []
    else if Stripped(ms[0]) then Kept(ms[1..])
    else [ms[0]] + Kept(ms[1..])
  }

  function StripIdentity(inner: string): string {
    match SplitMatchers(inner)
    case Err(_) => inner
    case Ok(ms) => Join(Kept(ms), ",")
  }

  // ----- scoped selectors

  function HexDigit(n: nat): char
    requires n < 16
  {
    "0123456789abcdef"[n]
  }

  /** Go's `%q` of one byte, without the surrounding quotes. */
  function EscapeChar(c: char): string {
    if c == '"' then "\\\""
    else if c == '\\' then "\\\\"
    else if c == '\U{07}' then "\\a"
    else if c == '\U{08}' then "\\b"
    else if c == '\U{0C}' then "\\f"
    else if c == '\n' then "\\n"
    else if c == '\r' then "\\r"
    else if c == '\t' then "\\t"
    else if c == '\U{0B}' then "\\v"
    else if c < ' ' || c == '\U{7F}' then "\\x" + [HexDigit(c as int / 16), HexDigit(c as int % 16)]
    else [c]
  }

  function Escape(s: string): string {
    if s == "" then "" else EscapeChar(s[0]) + Escape(s[1..])
  }

  function ScopeText(id: Identity): string {
    "waf_namespace=\"" + Escape(id.namespace) + "\",waf_name=\"" + Escape(id.name) + "\""
  }

  function Inject(metric: string, inner: string, id: Identity): Result<string, Error> {
    if id.namespace == "" || id.name == "" then Err(InvalidIdentity)
    else if Trim(inner) == "" then Ok(metric + "{" + ScopeText(id) + "}")
    else Ok(metric + "{" + ScopeText(id) + "," + Trim(inner) + "}")
  }

  /** One selector per identity, each followed by the range. */
  function InjectAll(metric: string, inner: string, range: string, ids: seq<Identity>): Result<seq<string>, Error> {
    if |ids| == 0 then Ok([])
    else
      match Inject(metric, inner, ids[0])
      case Err(e) => Err(e)
      case Ok(sel) => Cons(sel + range, InjectAll(metric, inner, range, ids[1..]))
  }

  datatype Parts = Parts(parts: seq<string>, taken: nat)

  /** The bytes of a range that follows, leading blanks included; zero when none follows. */
  function RangeAt(rest: string): (r: Result<nat, Error>)
    ensures r.Ok? ==> r.value <= |rest|
  {
    var j := BlankLen(rest);
    if j < |rest| && rest[j] == '[' then
      match GroupEnd(rest[j..], BRACKET)
      case None => Err(UnterminatedRange)
      case Some(n) => Ok(j + n)
    else Ok(0)
  }

  /** The scoped selectors for a selector that ends where `rest` begins; a range that
      follows is taken from `rest`. */
  function ScopedParts(metric: string, inner: string, rest: string, ids: seq<Identity>): (r: Result<Parts, Error>)
    ensures r.Ok? ==> r.value.taken <= |rest|
  {
    match RejectForeign(inner, ids)
    case Some(e) => Err(e)
    case None =>
      match RangeAt(rest)
      case Err(e) => Err(e)
      case Ok(n) => PartsOf(InjectAll(metric, StripIdentity(inner), rest[..n], ids), n)
  }

  function PartsOf(r: Result<seq<string>, Error>, taken: nat): Result<Parts, Error> {
    if r.Ok? then Ok(Parts(r.value, taken)) else Err(r.error)
  }

  /** The text of one expression per identity, joined into a union when there are several. */
  function Union(parts: seq<string>): string {
    if |parts| == 1 then parts[0] else "(" + Join(parts, " or ") + ")"
  }

  // ----- one step of the scanner

  /** What a step writes and how many bytes it takes. */
  datatype Emit = Emit(out: string, taken: nat)

  function Selector(metric: string, inner: string, before: nat, rest: string, ids: seq<Identity>): (r: Result<Emit, Error>)
    ensures r.Ok? ==> before <= r.value.taken <= before + |rest|
  {
    match ScopedParts(metric, inner, rest, ids)
    case Err(e) => Err(e)
    case Ok(p) => Ok(Emit(Union(p.parts), before + p.taken))
  }

  /** The trimmed text between the braces of a selector of `n` bytes. */
  function Inner(s: string, n: nat): string
    requires 2 <= n <= |s|
  {
    Trim(s[1..n - 1])
  }

  /** `s[at..]` starts with `{`; the `at` bytes before it spell the metric. */
  function BraceSelector(s: string, metric: string, at: nat, ids: seq<Identity>): (r: Result<Emit, Error>)
    requires at < |s| && s[at] == '{'
    ensures r.Ok? ==> at < r.value.taken <= |s|
  {
    match GroupEnd(s[at..], BRACE)
    case None => Err(UnterminatedSelector)
    case Some(n) => Selector(metric, Inner(s[at..], n), at + n, s[at + n..], ids)
  }

  function Calls(ident: string, parts: seq<string>, extra: string): seq<string> {
    if |parts| == 0 then [] else [ident + "(" + parts[0] + extra + ")"] + Calls(ident, parts[1..], extra)
  }

  /** `t` starts at the parenthesis of a range function call whose selector ends `sel` bytes in. */
  function RangeCallFrom(t: string, ident: string, metric: string, inner: string, sel: nat, ids: seq<Identity>):
      (r: Result<Option<Emit>, Error>)
    requires sel <= |t|
    ensures r.Ok? && r.value.Some? ==> 1 < r.value.value.taken <= |t|
  {
    match ScopedParts(metric, inner, t[sel..], ids)
    case Err(e) => Err(e)
    case Ok(p) =>
      match GroupEnd(t, PAREN)
      case None => Err(UnterminatedGrouping)
      case Some(end) =>
        if end - 1 < sel + p.taken then Err(SliceOutOfRange)
        else
          var extra := t[sel + p.taken..end - 1];
          if '{' in extra || '}' in extra then Ok(None)
          else Ok(Some(Emit(Union(Calls(ident, p.parts, extra)), end)))
  }

  /** `t` starts at the parenthesis. `None` when the argument is not a plain selector. */
  function RangeCall(t: string, ident: string, ids: seq<Identity>): (r: Result<Option<Emit>, Error>)
    requires t != "" && t[0] == '('
    ensures r.Ok? && r.value.Some? ==> 1 < r.value.value.taken <= |t|
  {
    var a := 1 + BlankLen(t[1..]);
    var n := IdentLen(t[a..]);
    var b := if n == 0 then a else a + n + BlankLen(t[a + n..]);
    if b < |t| && t[b] == '{' then
      match GroupEnd(t[b..], BRACE)
      case None => Err(UnterminatedSelector)
      case Some(len) => RangeCallFrom(t, ident, t[a..a + n], Inner(t[b..], len), b + len, ids)
    else if n == 0 then Ok(None)
    else RangeCallFrom(t, ident, t[a..a + n], "", b, ids)
  }

  lemma RangeCallBraces(t: string, fn: string, a: nat, n: nat, b: nat, len: nat, ids: seq<Identity>)
    requires t != "" && t[0] == '(' && a == 1 + BlankLen(t[1..]) && n == IdentLen(t[a..])
    requires b == if n == 0 then a else a + n + BlankLen(t[a + n..])
    requires b < |t| && t[b] == '{' && 2 <= len <= |t| - b && GroupEnd(t[b..], BRACE) == Some(len)
    ensures RangeCall(t, fn, ids) == RangeCallFrom(t, fn, t[a..a + n], Inner(t[b..], len), b + len, ids)
  {
    hide RangeCallFrom, Inner, GroupEnd, IdentLen, BlankLen;
  }

  lemma RangeCallBare(t: string, fn: string, a: nat, n: nat, b: nat, ids: seq<Identity>)
    requires t != "" && t[0] == '(' && a == 1 + BlankLen(t[1..]) && n == IdentLen(t[a..]) > 0
    requires b == a + n + BlankLen(t[a + n..]) && (b < |t| ==> t[b] != '{')
    ensures RangeCall(t, fn, ids) == RangeCallFrom(t, fn, t[a..a + n], "", b, ids)
  {
    hide RangeCallFrom, GroupEnd, IdentLen, BlankLen, Inner;
  }

  lemma RangeCallOpen(t: string, fn: string, a: nat, n: nat, b: nat, ids: seq<Identity>)
    requires t != "" && t[0] == '(' && a == 1 + BlankLen(t[1..]) && n == IdentLen(t[a..])
    requires b == if n == 0 then a else a + n + BlankLen(t[a + n..])
    requires b < |t| && t[b] == '{' && GroupEnd(t[b..], BRACE) == None
    ensures RangeCall(t, fn, ids) == Err(UnterminatedSelector)
  {
    hide RangeCallFrom, Inner, GroupEnd, IdentLen, BlankLen;
  }

  lemma RangeCallNone(t: string, fn: string, a: nat, ids: seq<Identity>)
    requires t != "" && t[0] == '(' && a == 1 + BlankLen(t[1..]) && IdentLen(t[a..]) == 0 && (a < |t| ==> t[a] != '{')
    ensures RangeCall(t, fn, ids) == Ok(None)
  {
    hide RangeCallFrom, Inner, GroupEnd, IdentLen, BlankLen;
  }

  predicate AggregationFollows(t: string) {
    t != "" &&
    (t[0] == '(' ||
     (var n := IdentLen(t);
      var low := Lower(t[..n]);
      var k := n + BlankLen(t[n..]);
      (low == "by" || low == "without") && k < |t| && t[k] == '('))
  }

  /** The bytes of a grouping list that follows a grouping keyword, leading blanks included. */
  function GroupingLen(t: string): (n: nat)
    ensures n <= |t|
  {
    var j := BlankLen(t);
    if j < |t| && t[j] == '(' then
      match GroupEnd(t[j..], PAREN)
      case None => 0
      case Some(n) => j + n
    else 0
  }

  /** `s` starts with an identifier of `n` bytes that is no keyword. */
  function Name(s: string, n: nat, ids: seq<Identity>): (r: Result<Emit, Error>)
    requires 0 < n <= |s|
    ensures r.Ok? ==> 0 < r.value.taken <= |s|
  {
    var ident, low := s[..n], Lower(s[..n]);
    var j := n + BlankLen(s[n..]);
    if j < |s| && s[j] == '(' then
      if IsRangeFunction(low) then
        match RangeCall(s[j..], ident, ids)
        case Err(e) => Err(e)
        case Ok(Some(call)) => Ok(Emit(call.out, j + call.taken))
        case Ok(None) => Ok(Emit(ident, n))
      else Ok(Emit(ident, n))
    else if IsAggregator(low) && AggregationFollows(s[j..]) then Ok(Emit(ident, n))
    else if j < |s| && s[j] == '{' then BraceSelector(s, ident, j, ids)
    else Selector(ident, "", n, s[n..], ids)
  }

  function Word(s: string, n: nat, ids: seq<Identity>): (r: Result<Emit, Error>)
    requires 0 < n <= |s|
    ensures r.Ok? ==> 0 < r.value.taken <= |s|
  {
    var low := Lower(s[..n]);
    if IsKeyword(low) then
      var m := if IsGroupingKeyword(low) then n + GroupingLen(s[n..]) else n;
      Ok(Emit(s[..m], m))
    else Name(s, n, ids)
  }

  function Step(s: string, ids: seq<Identity>): (r: Result<Emit, Error>)
    requires s != ""
    ensures r.Ok? ==> 0 < r.value.taken <= |s|
  {
    if IsQuote(s[0]) then
      match QuoteEnd(s[1..], s[0])
      case None => Err(UnterminatedString)
      case Some(n) => Ok(Emit(s[..1 + n], 1 + n))
    else if NumberStarts(s) then
      Ok(Emit(s[..NumberLen(s)], NumberLen(s)))
    else if s[0] == '[' then
      match GroupEnd(s, BRACKET)
      case None => Err(UnterminatedRange)
      case Some(n) => Ok(Emit(s[..n], n))
    else if s[0] == '{' then BraceSelector(s, "", 0, ids)
    else if IsIdentStart(s[0]) then Word(s, IdentLen(s), ids)
    else Ok(Emit([s[0]], 1))
  }

  function Prepend(out: string, r: Result<string, Error>): Result<string, Error> {
    if r.Ok? then Ok(out + r.value) else r
  }

  lemma PrependTwice(a: string, b: string, r: Result<string, Error>)
    ensures Prepend(a, Prepend(b, r)) == Prepend(a + b, r)
  {
    if r.Ok? { Assoc(a, b, r.value); }
  }

  /** The rewriting of the text that is left. */
  function Rewrite(s: string, ids: seq<Identity>): Result<string, Error>
    decreases |s|
  {
    if s == "" then Ok("")
    else
      match Step(s, ids)
      case Err(e) => Err(e)
      case Ok(step) => Prepend(step.out, Rewrite(s[step.taken..], ids))
  }

  function ScopePromQL(query: string, namespace: string, name: string): Result<string, Error> {
    if Trim(query) == "" then Err(EmptyQuery)
    else if namespace == "" || name == "" then Err(MissingIdentity)
    else Rewrite(query, [Identity(namespace, name)])
  }

  function Capped(ids: seq<Identity>): seq<Identity> {
    if |ids| > MAX_UNION then ids[..MAX_UNION] else ids
  }

  function ScopePromQLToWAFs(query: string, ids: seq<Identity>): Result<string, Error> {
    if Trim(query) == "" then Err(EmptyQuery)
    else if |ids| == 0 then Ok("vector(0)")
    else Rewrite(query, Capped(ids))
  }
}
