/** The scanner as it runs: loops that move an index over the query and append to a
    builder, each proved to compute the function that specifies it. */
module PromScanner {
  import opened Text
  import opened PromLexer
  import opened PromScope

  function Append(parts: seq<string>, r: Result<seq<string>, Error>): Result<seq<string>, Error> {
    if r.Ok? then Ok(parts + r.value) else r
  }

  // ----- splitting matchers

  lemma SplitStep(cur: string, l: Lex, s: string, i: nat)
    requires i < |s| && Next(l, s[i], LIST).depth != 0
    ensures SplitFrom(cur, l, s[i..]) == SplitFrom(cur + [s[i]], Next(l, s[i], LIST), s[i + 1..])
  {
    var t, u := s[i..], s[i + 1..];
    assert t[1..] == u;
    var r := CloseEnd(Next(l, s[i], LIST), u, LIST);
    if r.Some? {
      var n := r.value;
      assert cur + t[..n] == (cur + [s[i]]) + u[..n - 1];
      assert t[n + 1..] == u[n..];
    } else {
      assert cur + t == (cur + [s[i]]) + u;
    }
  }

  lemma SplitComma(cur: string, s: string, i: nat)
    requires i < |s| && s[i] == ','
    ensures SplitFrom(cur, PLAIN, s[i..]) == Cons(Trim(cur), SplitFrom("", PLAIN, s[i + 1..]))
  {
    var t := s[i..];
    assert t[1..] == s[i + 1..];
    assert cur + t[..0] == cur;
  }

  lemma SplitAtEnd(cur: string, l: Lex, s: string)
    ensures SplitFrom(cur, l, s[|s|..]) ==
            if l.quote != NUL then Err(UnterminatedMatcher) else if Trim(cur) == "" then Ok([]) else Ok([Trim(cur)])
  {
    assert s[|s|..] == "";
    assert cur + "" == cur;
  }

  lemma AppendCons(parts: seq<string>, p: string, r: Result<seq<string>, Error>)
    ensures Append(parts, Cons(p, r)) == Append(parts + [p], r)
  {
    if r.Ok? { assert parts + ([p] + r.value) == (parts + [p]) + r.value; }
  }

  method SplitMatchers(inner: string) returns (r: Result<seq<string>, Error>)
    ensures r == PromScope.SplitMatchers(inner)
  {
    hide SplitFrom, Run, CloseEnd;
    var s := Trim(inner);
    var parts, cur, quote, i := [], "", NUL, 0;
    ghost var want := SplitFrom("", PLAIN, s);
    assert s[0..] == s;
    assert want.Ok? ==> [] + want.value == want.value;
    while i < |s|
      invariant 0 <= i <= |s|
      invariant want == Append(parts, SplitFrom(cur, Lex(quote, false, 1), s[i..]))
    {
      var c := s[i];
      if quote == NUL && c == ',' {
        SplitComma(cur, s, i);
        AppendCons(parts, Trim(cur), SplitFrom("", PLAIN, s[i + 1..]));
        parts, cur := parts + [Trim(cur)], "";
        i := i + 1;
        continue;
      }
      SplitStep(cur, Lex(quote, false, 1), s, i);
      cur := cur + [c];
      i := i + 1;
      if quote != NUL {
        if c == '\\' {
          if i < |s| {
            SplitStep(cur, Lex(quote, true, 1), s, i);
            cur := cur + [s[i]];
            i := i + 1;
          } else {
            SplitAtEnd(cur, Lex(quote, true, 1), s);
            SplitAtEnd(cur, Lex(quote, false, 1), s);
          }
        } else if c == quote {
          quote := NUL;
        }
      } else if IsQuote(c) {
        quote := c;
      }
    }
    SplitAtEnd(cur, Lex(quote, false, 1), s);
    assert parts + [] == parts;
    if quote != NUL {
      return Err(UnterminatedMatcher);
    }
    if Trim(cur) != "" {
      parts := parts + [Trim(cur)];
    }
    return Ok(parts);
  }

  // ----- identity matchers

  method ExtractIdentityMatchers(inner: string) returns (r: Result<Identity, Error>)
    ensures r == match PromScope.SplitMatchers(inner)
                 case Err(e) => Err(e)
                 case Ok(ms) => IdentityOf(ms, Identity("", ""))
  {
    hide ParseMatcher, PromScope.SplitMatchers;
    var split := SplitMatchers(inner);
    if split.Err? {
      return Err(split.error);
    }
    var ms, found, i := split.value, Identity("", ""), 0;
    assert ms[0..] == ms;
    while i < |ms|
      invariant 0 <= i <= |ms|
      invariant IdentityOf(ms, Identity("", "")) == IdentityOf(ms[i..], found)
    {
      assert ms[i..][1..] == ms[i + 1..];
      var p := ParseMatcher(ms[i]);
      if p.Some? {
        if p.value.op != "=" {
          if IsIdentityKey(p.value.key) {
            return Err(NotEquality(p.value.key));
          }
        } else if p.value.key == "waf_namespace" {
          found := found.(namespace := p.value.val);
        } else if p.value.key == "waf_name" {
          found := found.(name := p.value.val);
        }
      }
      i := i + 1;
    }
    return Ok(found);
  }

  method RejectForeignIdentity(inner: string, ids: seq<Identity>) returns (r: Option<Error>)
    ensures r == RejectForeign(inner, ids)
  {
    hide IdentityOf, PromScope.SplitMatchers;
    var e := ExtractIdentityMatchers(inner);
    if e.Err? {
      return Some(e.error);
    }
    var want := e.value;
    if want == Identity("", "") {
      return None;
    }
    var i := 0;
    while i < |ids|
      invariant 0 <= i <= |ids|
      invariant forall k :: 0 <= k < i ==> !Admits(want, ids[k])
    {
      if Admits(want, ids[i]) {
        return None;
      }
      i := i + 1;
    }
    return Some(EscapesScope);
  }

  method StripIdentityMatchers(inner: string) returns (r: string)
    ensures r == StripIdentity(inner)
  {
    hide Stripped, PromScope.SplitMatchers;
    var split := SplitMatchers(inner);
    if split.Err? {
      return inner;
    }
    var ms, keep, i := split.value, [], 0;
    assert ms[0..] == ms && [] + Kept(ms) == Kept(ms);
    while i < |ms|
      invariant 0 <= i <= |ms|
      invariant Kept(ms) == keep + Kept(ms[i..])
    {
      assert ms[i..][1..] == ms[i + 1..];
      if !Stripped(ms[i]) {
        assert keep + ([ms[i]] + Kept(ms[i + 1..])) == (keep + [ms[i]]) + Kept(ms[i + 1..]);
        keep := keep + [ms[i]];
      }
      i := i + 1;
    }
    assert Kept(ms[i..]) == [] && keep + [] == keep;
    return Join(keep, ",");
  }

  // ----- scoped selectors

  /** `afterSel` is where the selector ends; the second result is where its range ends. */
  method ScopedSelectorParts(q: string, metric: string, inner: string, afterSel: nat, ids: seq<Identity>)
    returns (r: Result<Parts, Error>)
    requires afterSel <= |q|
    ensures r == ScopedParts(metric, inner, q[afterSel..], ids)
  {
    hide RejectForeign, StripIdentity, Inject, GroupEnd, BlankLen;
    ghost var rest := q[afterSel..];
    var foreign := RejectForeignIdentity(inner, ids);
    if foreign.Some? {
      return Err(foreign.value);
    }
    var cleaned := StripIdentityMatchers(inner);
    var range, end := "", afterSel;
    var j := SkipSpace(q, afterSel);
    if j < |q| && q[j] == '[' {
      assert rest[j - afterSel..] == q[j..];
      BracketMarks();
      var close := SkipGroup(q, j, BRACKET);
      if close.None? {
        return Err(UnterminatedRange);
      }
      end := close.value;
      range := q[afterSel..end];
      assert rest[..end - afterSel] == range;
    }
    assert RangeAt(rest) == Ok(end - afterSel) && rest[..end - afterSel] == range;
    var parts, i := [], 0;
    ghost var want := InjectAll(metric, cleaned, range, ids);
    assert ids[0..] == ids;
    assert want.Ok? ==> [] + want.value == want.value;
    while i < |ids|
      invariant 0 <= i <= |ids|
      invariant want == Append(parts, InjectAll(metric, cleaned, range, ids[i..]))
    {
      assert ids[i..][1..] == ids[i + 1..];
      var sel := Inject(metric, cleaned, ids[i]);
      if sel.Err? {
        return Err(sel.error);
      }
      AppendCons(parts, sel.value + range, InjectAll(metric, cleaned, range, ids[i + 1..]));
      parts := parts + [sel.value + range];
      i := i + 1;
    }
    assert ids[i..] == [] && parts + [] == parts;
    return Ok(Parts(parts, end - afterSel));
  }

  lemma BracketMarks()
    ensures GroupMarks(BRACKET) && GroupMarks(BRACE) && GroupMarks(PAREN)
  {
  }

  method EmitScopedSelectors(q: string, metric: string, inner: string, afterSel: nat, ids: seq<Identity>)
    returns (r: Result<Emit, Error>)
    requires afterSel <= |q|
    ensures r == Selector(metric, inner, afterSel, q[afterSel..], ids)
  {
    hide ScopedParts;
    var p := ScopedSelectorParts(q, metric, inner, afterSel, ids);
    if p.Err? {
      return Err(p.error);
    }
    var parts := p.value.parts;
    if |parts| == 1 {
      return Ok(Emit(parts[0], afterSel + p.value.taken));
    }
    return Ok(Emit("(" + Join(parts, " or ") + ")", afterSel + p.value.taken));
  }

  /** A step counted from `i` instead of from the start of the text. */
  function At(i: nat, r: Result<Emit, Error>): Result<Emit, Error> {
    if r.Ok? then Ok(Emit(r.value.out, i + r.value.taken)) else r
  }

  lemma SelectorShift(i: nat, metric: string, inner: string, before: nat, rest: string, ids: seq<Identity>)
    ensures At(i, Selector(metric, inner, before, rest, ids)) == Selector(metric, inner, i + before, rest, ids)
  {
    hide ScopedParts;
  }

  /** `i` is where the metric starts and `brace` where its brace is. */
  method RewriteSelectorAt(q: string, metric: string, ghost i: nat, brace: nat, ids: seq<Identity>)
    returns (r: Result<Emit, Error>)
    requires i <= brace < |q| && q[brace] == '{'
    ensures q[i..][brace - i] == '{' && r == At(i, BraceSelector(q[i..], metric, brace - i, ids))
  {
    hide Selector, GroupEnd;
    ghost var s := q[i..];
    assert s[brace - i..] == q[brace..];
    BracketMarks();
    var close := SkipGroup(q, brace, BRACE);
    if close.None? {
      return Err(UnterminatedSelector);
    }
    var after := close.value;
    assert q[brace..][1..after - brace - 1] == q[brace + 1..after - 1];
    var inner := Trim(q[brace + 1..after - 1]);
    assert s[after - i..] == q[after..];
    r := EmitScopedSelectors(q, metric, inner, after, ids);
    SelectorShift(i, metric, inner, after - i, q[after..], ids);
  }

  method JoinCalls(ident: string, parts: seq<string>, extra: string) returns (out: string)
    ensures out == Union(Calls(ident, parts, extra))
  {
    var calls, i := [], 0;
    assert parts[0..] == parts && [] + Calls(ident, parts, extra) == Calls(ident, parts, extra);
    while i < |parts|
      invariant 0 <= i <= |parts|
      invariant Calls(ident, parts, extra) == calls + Calls(ident, parts[i..], extra)
    {
      assert parts[i..][1..] == parts[i + 1..];
      var call := ident + "(" + parts[i] + extra + ")";
      assert calls + ([call] + Calls(ident, parts[i + 1..], extra)) == (calls + [call]) + Calls(ident, parts[i + 1..], extra);
      calls := calls + [call];
      i := i + 1;
    }
    assert calls + [] == calls;
    if |calls| == 1 {
      return calls[0];
    }
    return "(" + Join(calls, " or ") + ")";
  }

  /** A range call step counted from `paren`. */
  function CallAt(paren: nat, r: Result<Option<Emit>, Error>): Result<Option<Emit>, Error> {
    if r.Ok? && r.value.Some? then Ok(Some(Emit(r.value.value.out, paren + r.value.value.taken))) else r
  }

  /** The part of a range call after its selector, which ends at `sel`. */
  method FinishRangeCall(q: string, ident: string, paren: nat, metric: string, inner: string, sel: nat, ids: seq<Identity>)
    returns (r: Result<Option<Emit>, Error>)
    requires paren < |q| && q[paren] == '(' && paren <= sel <= |q|
    ensures r == CallAt(paren, RangeCallFrom(q[paren..], ident, metric, inner, sel - paren, ids))
  {
    hide ScopedParts, GroupEnd, Union, Calls;
    ghost var t := q[paren..];
    assert t[sel - paren..] == q[sel..];
    var p := ScopedSelectorParts(q, metric, inner, sel, ids);
    if p.Err? {
      return Err(p.error);
    }
    var afterSel := sel + p.value.taken;
    BracketMarks();
    var close := SkipGroup(q, paren, PAREN);
    if close.None? {
      return Err(UnterminatedGrouping);
    }
    var end := close.value;
    if end - 1 < afterSel {
      return Err(SliceOutOfRange);
    }
    var extra := q[afterSel..end - 1];
    assert t[afterSel - paren..end - paren - 1] == extra;
    if '{' in extra || '}' in extra {
      return Ok(None);
    }
    var out := JoinCalls(ident, p.value.parts, extra);
    return Ok(Some(Emit(out, end)));
  }

  lemma Shift(q: string, p: nat, i: nat)
    requires p <= i <= |q|
    ensures q[p..][i - p..] == q[i..]
    ensures i < |q| ==> q[p..][i - p] == q[i]
  {
  }

  /** Reads the metric after the parenthesis at `paren`: it spans `a..a + |metric|`, and `i` is past the blanks after it. */
  method ReadMetric(q: string, paren: nat) returns (metric: string, ghost a: nat, i: nat)
    requires paren < |q|
    ensures paren < a <= i <= |q| && a - paren == 1 + BlankLen(q[paren..][1..])
    ensures |metric| == IdentLen(q[paren..][a - paren..]) && a + |metric| <= |q| && q[paren..][a - paren..a + |metric| - paren] == metric
    ensures i == if metric == "" then a else a + |metric| + BlankLen(q[paren..][a + |metric| - paren..])
  {
    hide IdentLen, BlankLen;
    Shift(q, paren, paren + 1);
    i := SkipSpace(q, paren + 1);
    a := i;
    Shift(q, paren, i);
    metric, i := ReadIdent(q, i);
    if metric != "" {
      Shift(q, paren, i);
      i := SkipSpace(q, i);
    }
  }

  /** The call whose selector has its brace at `i`. */
  method BracedRangeCall(q: string, ident: string, paren: nat, metric: string, ghost a: nat, i: nat, ids: seq<Identity>)
    returns (r: Result<Option<Emit>, Error>)
    requires paren < |q| && q[paren] == '(' && paren < a <= i < |q| && q[i] == '{' && a - paren == 1 + BlankLen(q[paren..][1..])
    requires |metric| == IdentLen(q[paren..][a - paren..]) && a + |metric| <= |q| && q[paren..][a - paren..a + |metric| - paren] == metric
    requires i == if metric == "" then a else a + |metric| + BlankLen(q[paren..][a + |metric| - paren..])
    ensures r == CallAt(paren, RangeCall(q[paren..], ident, ids))
  {
    hide RangeCall, RangeCallFrom, GroupEnd, IdentLen, BlankLen, GroupMarks;
    ghost var t := q[paren..];
    Shift(q, paren, i);
    BracketMarks();
    var close := SkipGroup(q, i, BRACE);
    if close.None? {
      RangeCallOpen(t, ident, a - paren, |metric|, i - paren, ids);
      return Err(UnterminatedSelector);
    }
    var after := close.value;
    RangeCallBraces(t, ident, a - paren, |metric|, i - paren, after - i, ids);
    assert q[i..][1..after - i - 1] == q[i + 1..after - 1];
    r := FinishRangeCall(q, ident, paren, metric, Trim(q[i + 1..after - 1]), after, ids);
  }

  method RewriteRangeFuncCall(q: string, ident: string, paren: nat, ids: seq<Identity>)
    returns (r: Result<Option<Emit>, Error>)
    requires paren < |q| && q[paren] == '('
    ensures r == CallAt(paren, RangeCall(q[paren..], ident, ids))
  {
    hide RangeCall, RangeCallFrom, IdentLen, BlankLen;
    ghost var t := q[paren..];
    var metric, a, i := ReadMetric(q, paren);
    Shift(q, paren, i);
    if i < |q| && q[i] == '{' {
      r := BracedRangeCall(q, ident, paren, metric, a, i, ids);
      return;
    }
    if metric == "" {
      RangeCallNone(t, ident, a - paren, ids);
      return Ok(None);
    }
    RangeCallBare(t, ident, a - paren, |metric|, i - paren, ids);
    r := FinishRangeCall(q, ident, paren, metric, "", i, ids);
  }

  method IsAggModifier(q: string, j: nat) returns (b: bool)
    requires j <= |q|
    ensures b == AggregationFollows(q[j..])
  {
    hide IdentLen, BlankLen;
    if j >= |q| {
      return false;
    }
    if q[j] == '(' {
      return true;
    }
    var ident, next := ReadIdent(q, j);
    assert q[j..][..next - j] == ident && q[j..][next - j..] == q[next..];
    var k := SkipSpace(q, next);
    assert k < |q| ==> q[j..][k - j] == q[k];
    return (Lower(ident) == "by" || Lower(ident) == "without") && k < |q| && q[k] == '(';
  }

  /** Where a grouping list that starts at `i` ends; `i` itself when there is none. */
  method SkipGroupingList(q: string, i: nat) returns (end: nat)
    requires i <= |q|
    ensures end == i + GroupingLen(q[i..])
  {
    hide GroupEnd, BlankLen;
    var j := SkipSpace(q, i);
    if j >= |q| || q[j] != '(' {
      return i;
    }
    assert q[i..][j - i..] == q[j..];
    BracketMarks();
    var close := SkipGroup(q, j, PAREN);
    if close.None? {
      return i;
    }
    return close.value;
  }

  /** A name that is no keyword, read from `i` to `next`. */
  method ScanName(q: string, i: nat, next: nat, ident: string, ids: seq<Identity>) returns (r: Result<Emit, Error>)
    requires i < next <= |q| && ident == q[i..next]
    ensures r == At(i, Name(q[i..], next - i, ids))
  {
    hide Selector, BraceSelector, RangeCall, AggregationFollows, IsRangeFunction, IsAggregator, BlankLen;
    ghost var s, n := q[i..], next - i;
    var low := Lower(ident);
    assert s[..n] == ident && s[n..] == q[next..];
    var j := SkipSpace(q, next);
    assert s[j - i..] == q[j..];
    assert j < |q| ==> s[j - i] == q[j];
    if j < |q| && q[j] == '(' {
      if IsRangeFunction(low) {
        var call := RewriteRangeFuncCall(q, ident, j, ids);
        if call.Err? {
          return Err(call.error);
        }
        if call.value.Some? {
          return Ok(call.value.value);
        }
      }
      return Ok(Emit(ident, next));
    }
    var modifier := IsAggModifier(q, j);
    if IsAggregator(low) && modifier {
      return Ok(Emit(ident, next));
    }
    if j < |q| && q[j] == '{' {
      r := RewriteSelectorAt(q, ident, i, j, ids);
      return;
    }
    r := EmitScopedSelectors(q, ident, "", next, ids);
    SelectorShift(i, ident, "", n, q[next..], ids);
  }

  /** One turn of the main loop, from position `i`. */
  method ScanStep(q: string, i: nat, ids: seq<Identity>) returns (r: Result<Emit, Error>)
    requires i < |q|
    ensures r == At(i, Step(q[i..], ids))
  {
    hide Name, BraceSelector, GroupEnd, QuoteEnd, NumberLen, IdentLen, GroupingLen, IsKeyword, IsGroupingKeyword;
    ghost var s := q[i..];
    var c := q[i];
    assert s[0] == c && s[1..] == q[i + 1..];
    if IsQuote(c) {
      var end := SkipQuoted(q, i);
      if end.Err? {
        return Err(end.error);
      }
      assert s[..end.value - i] == q[i..end.value];
      return Ok(Emit(q[i..end.value], end.value));
    }
    if IsDigit(c) || (c == '.' && i + 1 < |q| && IsDigit(q[i + 1])) {
      assert |s| > 1 ==> s[1] == q[i + 1];
      var end := SkipNumber(q, i);
      assert s[..end - i] == q[i..end];
      return Ok(Emit(q[i..end], end));
    }
    if c == '[' {
      BracketMarks();
      var close := SkipGroup(q, i, BRACKET);
      if close.None? {
        return Err(UnterminatedRange);
      }
      assert s[..close.value - i] == q[i..close.value];
      return Ok(Emit(q[i..close.value], close.value));
    }
    if c == '{' {
      r := RewriteSelectorAt(q, "", i, i, ids);
      return;
    }
    if IsIdentStart(c) {
      IdentPositive(s);
      var ident, next := ReadIdent(q, i);
      assert s[..next - i] == ident;
      if IsKeyword(Lower(ident)) {
        var end := next;
        if IsGroupingKeyword(Lower(ident)) {
          assert s[next - i..] == q[next..];
          end := SkipGroupingList(q, next);
        }
        assert s[..end - i] == q[i..end];
        return Ok(Emit(q[i..end], end));
      }
      r := ScanName(q, i, next, ident, ids);
      return;
    }
    return Ok(Emit([c], i + 1));
  }

  lemma IdentPositive(s: string)
    requires s != "" && IsIdentStart(s[0])
    ensures IdentLen(s) > 0
  {
  }

  /** The main loop. Every slice it takes is in bounds, or the failure says it was not. */
  method RewritePromQL(query: string, ids: seq<Identity>) returns (r: Result<string, Error>)
    ensures r == Rewrite(query, ids)
  {
    hide Step;
    var out, i := "", 0;
    assert query[0..] == query;
    assert Rewrite(query, ids).Ok? ==> "" + Rewrite(query, ids).value == Rewrite(query, ids).value;
    while i < |query|
      invariant 0 <= i <= |query|
      invariant Rewrite(query, ids) == Prepend(out, Rewrite(query[i..], ids))
    {
      var step := ScanStep(query, i, ids);
      if step.Err? {
        return Err(step.error);
      }
      var next := step.value.taken;
      assert query[i..][next - i..] == query[next..];
      PrependTwice(out, step.value.out, Rewrite(query[next..], ids));
      out := out + step.value.out;
      i := next;
    }
    assert out + "" == out;
    return Ok(out);
  }
}
