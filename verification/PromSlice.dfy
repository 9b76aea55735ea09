/** The one slice of the scanner that can run backwards: a range call whose parenthesis closes
    before its selector ends. Exactly when that happens. */
module PromSlice {
  import opened Text
  import opened PromLexer
  import opened PromScope
  import opened PromTree
  import opened PromTokens
  import opened PromSelectors
  import opened PromRangeStep

  // ----- closing too early

  /** Reading on from `l`, with quotes honoured, some prefix of `x` closes all that was open. */
  ghost predicate Falls(l: Lex, x: string)
    decreases |x|
  {
    x != "" && var n := Next(l, x[0], PAREN); n.depth == 0 || Falls(n, x[1..])
  }

  lemma {:induction false} ClosesWithin(l: Lex, s: string, m: nat)
    requires m <= |s|
    ensures CloseEnd(l, s, PAREN).Some? && CloseEnd(l, s, PAREN).value <= m <==> Falls(l, s[..m])
    decreases |s|
  {
    hide Next;
    if m > 0 {
      assert s[..m][1..] == s[1..][..m - 1];
      ClosesWithin(Next(l, s[0], PAREN), s[1..], m - 1);
    }
  }

  function Count(c: char, s: string): nat {
    if s == "" then 0 else Count(c, s[..|s| - 1]) + if s[|s| - 1] == c then 1 else 0
  }

  /** Some prefix closes one parenthesis more than it opens. */
  ghost predicate Overcloses(x: string) {
    exists n :: 0 <= n <= |x| && Count(')', x[..n]) == Count('(', x[..n]) + 1
  }

  ghost predicate NoQuotes(x: string) { forall i :: 0 <= i < |x| ==> !IsQuote(x[i]) }

  /** Where `d` parentheses are open, a prefix closes them and one opened before. */
  ghost predicate Drops(x: string, d: nat) {
    exists n :: 0 <= n <= |x| && Count(')', x[..n]) == Count('(', x[..n]) + d
  }

  lemma {:induction false} CountCons(c: char, a: char, s: string)
    ensures Count(c, [a] + s) == Count(c, s) + if a == c then 1 else 0
    decreases |s|
  {
    if s == "" {
      assert [a] + s == [a] && [a][..0] == "";
    } else {
      var n := |s| - 1;
      CountCons(c, a, s[..n]);
      assert ([a] + s)[..n + 1] == [a] + s[..n];
    }
  }

  lemma CountHead(c: char, x: string, n: nat)
    requires 0 < n <= |x|
    ensures Count(c, x[..n]) == Count(c, x[1..][..n - 1]) + if x[0] == c then 1 else 0
  {
    assert x[..n] == [x[0]] + x[1..][..n - 1];
    CountCons(c, x[0], x[1..][..n - 1]);
  }

  /** Shifting a drop by the first byte. */
  lemma DropsCons(x: string, d: nat, e: nat)
    requires x != "" && d > 0 && e == (if x[0] == '(' then d + 1 else if x[0] == ')' then d - 1 else d)
    ensures Drops(x, d) <==> Drops(x[1..], e)
  {
    hide Count;
    NoneCounted();
    if Drops(x, d) {
      var n :| 0 <= n <= |x| && Count(')', x[..n]) == Count('(', x[..n]) + d;
      assert x[..0] == "";
      CountHead(')', x, n);
      CountHead('(', x, n);
      assert 0 <= n - 1 <= |x[1..]|;
    }
    if Drops(x[1..], e) {
      var n :| 0 <= n <= |x[1..]| && Count(')', x[1..][..n]) == Count('(', x[1..][..n]) + e;
      CountHead(')', x, n + 1);
      CountHead('(', x, n + 1);
    }
  }

  lemma NoneCounted()
    ensures Count(')', "") == 0 && Count('(', "") == 0
  {
  }

  lemma {:induction false} FallsByCount(x: string, d: nat)
    requires d > 0 && NoQuotes(x)
    ensures Falls(Lex(NUL, false, d), x) <==> Drops(x, d)
    decreases |x|
  {
    hide Count, Drops;
    if x == "" {
      NothingDrops(d);
    } else {
      var e := if x[0] == '(' then d + 1 else if x[0] == ')' then d - 1 else d;
      DropsCons(x, d, e);
      assert Next(Lex(NUL, false, d), x[0], PAREN) == Lex(NUL, false, e);
      if e > 0 { FallsByCount(x[1..], e); } else { DropsNow(x[1..]); }
    }
  }

  lemma NothingDrops(d: nat)
    requires d > 0
    ensures !Drops("", d)
  {
    hide Count;
    NoneCounted();
    forall n | 0 <= n <= 0 ensures Count(')', ""[..n]) != Count('(', ""[..n]) + d { assert ""[..n] == ""; }
  }

  lemma DropsNow(x: string)
    ensures Drops(x, 0)
  {
    NoneCounted();
    assert x[..0] == "";
  }

  lemma Overclosing(x: string)
    requires NoQuotes(x)
    ensures Falls(PLAIN, x) <==> Overcloses(x)
  {
    hide Falls, Count;
    FallsByCount(x, 1);
  }

  // ----- the exact condition

  /** Where the selector of the call ends, its range included, when it is read and accepted. */
  function SelectorEnd(t: string, ids: seq<Identity>): (r: Option<nat>)
    requires t != "" && t[0] == '('
    ensures r.Some? ==> 0 < r.value <= |t|
  {
    var a := 1 + BlankLen(t[1..]);
    var n := IdentLen(t[a..]);
    var b := if n == 0 then a else a + n + BlankLen(t[a + n..]);
    if b < |t| && t[b] == '{' then
      match GroupEnd(t[b..], BRACE)
      case None => None
      case Some(len) => EndAfter(t, t[a..a + n], Inner(t[b..], len), b + len, ids)
    else if n == 0 then None
    else EndAfter(t, t[a..a + n], "", b, ids)
  }

  function EndAfter(t: string, metric: string, inner: string, sel: nat, ids: seq<Identity>): (r: Option<nat>)
    requires 0 < sel <= |t|
    ensures r.Some? ==> sel <= r.value <= |t|
  {
    var p := ScopedParts(metric, inner, t[sel..], ids);
    if p.Err? then None else Some(sel + p.value.taken)
  }

  lemma RangeFromExact(t: string, ident: string, metric: string, inner: string, sel: nat, ids: seq<Identity>)
    requires t != "" && t[0] == '(' && 0 < sel <= |t|
    ensures RangeCallFrom(t, ident, metric, inner, sel, ids) == Err(SliceOutOfRange) <==>
            EndAfter(t, metric, inner, sel, ids).Some? && Falls(PLAIN, t[1..EndAfter(t, metric, inner, sel, ids).value])
  {
    hide ScopedParts, Union, Calls, Falls, CloseEnd;
    PartsNeverSlice(metric, inner, t[sel..], ids);
    if EndAfter(t, metric, inner, sel, ids).Some? {
      var m := EndAfter(t, metric, inner, sel, ids).value;
      ClosesWithin(PLAIN, t[1..], m - 1);
      assert t[1..][..m - 1] == t[1..m];
    }
  }

  lemma {:induction false} InjectNeverSlice(metric: string, inner: string, range: string, ids: seq<Identity>)
    ensures InjectAll(metric, inner, range, ids) != Err(SliceOutOfRange)
  {
    if |ids| > 0 { InjectNeverSlice(metric, inner, range, ids[1..]); }
  }

  lemma {:induction false} SplitNeverSlice(cur: string, l: Lex, s: string)
    ensures SplitFrom(cur, l, s) != Err(SliceOutOfRange)
    decreases |s|
  {
    hide CloseEnd, PromLexer.Run;
    if CloseEnd(l, s, LIST).Some? { SplitNeverSlice("", PLAIN, s[CloseEnd(l, s, LIST).value..]); }
  }

  lemma {:induction false} IdentityNeverSlice(ms: seq<string>, found: Identity)
    ensures IdentityOf(ms, found) != Err(SliceOutOfRange)
    decreases |ms|
  {
    hide ParseMatcher;
    if |ms| > 0 {
      var p := ParseMatcher(ms[0]);
      IdentityNeverSlice(ms[1..], found);
      if p.Some? {
        IdentityNeverSlice(ms[1..], found.(namespace := p.value.val));
        IdentityNeverSlice(ms[1..], found.(name := p.value.val));
      }
    }
  }

  lemma RejectNeverSlice(inner: string, ids: seq<Identity>)
    ensures RejectForeign(inner, ids) != Some(SliceOutOfRange)
  {
    hide IdentityOf, SplitFrom;
    SplitNeverSlice("", PLAIN, Trim(inner));
    var ms := SplitMatchers(inner);
    if ms.Ok? { IdentityNeverSlice(ms.value, Identity("", "")); }
  }

  lemma PartsNeverSlice(metric: string, inner: string, rest: string, ids: seq<Identity>)
    ensures ScopedParts(metric, inner, rest, ids) != Err(SliceOutOfRange)
  {
    hide InjectAll, StripIdentity, GroupEnd;
    RejectNeverSlice(inner, ids);
    var n := RangeAt(rest);
    if n.Ok? { InjectNeverSlice(metric, StripIdentity(inner), rest[..n.value], ids); }
  }

  /** The slice of a range call runs backwards if and only if its selector is read and accepted and,
      read with quotes honoured, closes a parenthesis that it does not open. */
  lemma SliceExact(t: string, fn: string, ids: seq<Identity>)
    requires t != "" && t[0] == '('
    ensures RangeCall(t, fn, ids) == Err(SliceOutOfRange) <==>
            SelectorEnd(t, ids).Some? && Falls(PLAIN, t[1..SelectorEnd(t, ids).value])
  {
    hide RangeCallFrom, EndAfter, Inner, GroupEnd, IdentLen, BlankLen, Falls;
    var a := 1 + BlankLen(t[1..]);
    var n := IdentLen(t[a..]);
    var b := if n == 0 then a else a + n + BlankLen(t[a + n..]);
    if b < |t| && t[b] == '{' {
      var len := GroupEnd(t[b..], BRACE);
      if len.Some? { RangeFromExact(t, fn, t[a..a + n], Inner(t[b..], len.value), b + len.value, ids); }
    } else if n > 0 {
      RangeFromExact(t, fn, t[a..a + n], "", b, ids);
    }
  }

  lemma NameSlice(t: string, n: nat, j: nat, ids: seq<Identity>)
    requires 0 < n <= j < |t| && j == n + BlankLen(t[n..]) && t[j] == '('
    requires !IsKeyword(Lower(t[..n])) && IsRangeFunction(Lower(t[..n]))
    ensures Word(t, n, ids) == Err(SliceOutOfRange) <==> RangeCall(t[j..], t[..n], ids) == Err(SliceOutOfRange)
  {
    hide RangeCall, IsKeyword, IsRangeFunction, IsAggregator, AggregationFollows, BraceSelector, Selector;
  }

  /** The same of the scanner's step at a range function. */
  lemma StepSlice(fn: string, t: string, ids: seq<Identity>)
    requires IsName(fn) && IsRangeFunction(Lower(fn)) && t != "" && t[0] == '('
    ensures Step(fn + t, ids) == Err(SliceOutOfRange) <==> RangeCall(t, fn, ids) == Err(SliceOutOfRange)
  {
    hide RangeCall, IsIdent, IsKeyword, IsRangeFunction, Step, Word, BlankLen;
    assert "" + t == t;
    CalleeCut(fn, "", t);
    StepWord(fn, t, ids);
    NameSlice(fn + t, |fn|, |fn|, ids);
  }

  // ----- what follows the selector

  predicate Braced(x: string) { '{' in x || '}' in x }

  lemma FromExactly(t: string, fn: string, metric: string, inner: string, sel: nat, end: nat, ids: seq<Identity>)
      returns (parts: seq<string>)
    requires t != "" && t[0] == '(' && 0 < sel <= |t| && GroupEnd(t, PAREN) == Some(end)
    requires EndAfter(t, metric, inner, sel, ids).Some? && EndAfter(t, metric, inner, sel, ids).value < end <= |t|
    ensures |parts| == |ids|
    ensures var extra := t[EndAfter(t, metric, inner, sel, ids).value..end - 1];
            RangeCallFrom(t, fn, metric, inner, sel, ids) ==
            Ok(if Braced(extra) then None else Some(Emit(Union(Calls(fn, parts, extra)), end)))
  {
    hide ScopedParts, Union, Calls, GroupEnd;
    PartsNumber(metric, inner, t[sel..], ids);
    parts := ScopedParts(metric, inner, t[sel..], ids).value.parts;
  }

  lemma PartsNumber(metric: string, inner: string, rest: string, ids: seq<Identity>)
    requires ScopedParts(metric, inner, rest, ids).Ok?
    ensures |ScopedParts(metric, inner, rest, ids).value.parts| == |ids|
  {
    hide RejectForeign, RangeAt, StripIdentity, InjectAll;
    var n := RangeAt(rest).value;
    InjectNumber(metric, StripIdentity(inner), rest[..n], ids);
  }

  lemma {:induction false} InjectNumber(metric: string, inner: string, range: string, ids: seq<Identity>)
    requires InjectAll(metric, inner, range, ids).Ok?
    ensures |InjectAll(metric, inner, range, ids).value| == |ids|
  {
    if |ids| > 0 { InjectNumber(metric, inner, range, ids[1..]); }
  }

  /** A closed call whose selector is accepted: what follows the selector is copied into one call
      per WAF if and only if it holds no brace; otherwise the call is left to the general walk. */
  lemma ExtraExactly(t: string, fn: string, end: nat, ids: seq<Identity>) returns (parts: seq<string>)
    requires t != "" && t[0] == '(' && GroupEnd(t, PAREN) == Some(end)
    requires SelectorEnd(t, ids).Some? && SelectorEnd(t, ids).value < end <= |t|
    ensures |parts| == |ids|
    ensures var extra := t[SelectorEnd(t, ids).value..end - 1];
            RangeCall(t, fn, ids) == Ok(if Braced(extra) then None else Some(Emit(Union(Calls(fn, parts, extra)), end)))
  {
    hide RangeCallFrom, EndAfter, Inner, GroupEnd, IdentLen, BlankLen, Braced;
    var a := 1 + BlankLen(t[1..]);
    var n := IdentLen(t[a..]);
    var b := if n == 0 then a else a + n + BlankLen(t[a + n..]);
    if b < |t| && t[b] == '{' {
      var len := GroupEnd(t[b..], BRACE).value;
      parts := FromExactly(t, fn, t[a..a + n], Inner(t[b..], len), b + len, end, ids);
    } else {
      parts := FromExactly(t, fn, t[a..a + n], "", b, end, ids);
    }
  }

  /** The same of the scanner: it copies to the end of the call, or writes the name of the function
      and goes on inside the parenthesis. */
  lemma ExtraStep(fn: string, t: string, end: nat, ids: seq<Identity>) returns (parts: seq<string>)
    requires IsName(fn) && IsRangeFunction(Lower(fn)) && t != "" && t[0] == '(' && GroupEnd(t, PAREN) == Some(end)
    requires SelectorEnd(t, ids).Some? && SelectorEnd(t, ids).value < end <= |t|
    ensures |parts| == |ids|
    ensures var extra := t[SelectorEnd(t, ids).value..end - 1];
            Step(fn + t, ids) == Ok(if Braced(extra) then Emit(fn, |fn|)
                                    else Emit(Union(Calls(fn, parts, extra)), |fn| + end))
  {
    hide RangeCall, IsIdent, IsKeyword, IsRangeFunction, Step, Word, BlankLen, SelectorEnd, GroupEnd, Braced, Union, Calls;
    parts := ExtraExactly(t, fn, end, ids);
    assert "" + t == t;
    CalleeCut(fn, "", t);
    StepWord(fn, t, ids);
    NameCall(fn + t, |fn|, |fn|, ids);
  }

  lemma NameCall(t: string, n: nat, j: nat, ids: seq<Identity>)
    requires 0 < n <= j < |t| && j == n + BlankLen(t[n..]) && t[j] == '('
    requires !IsKeyword(Lower(t[..n])) && IsRangeFunction(Lower(t[..n])) && RangeCall(t[j..], t[..n], ids).Ok?
    ensures var call := RangeCall(t[j..], t[..n], ids).value;
            Word(t, n, ids) == Ok(if call.None? then Emit(t[..n], n) else Emit(call.value.out, j + call.value.taken))
  {
    hide RangeCall, IsKeyword, IsRangeFunction, IsAggregator, AggregationFollows, BraceSelector, Selector;
  }

  // ----- two families

  ghost predicate Usable(ids: seq<Identity>) {
    forall i :: 0 <= i < |ids| ==> ids[i].namespace != "" && ids[i].name != ""
  }

  lemma {:induction false} InjectAllOk(metric: string, inner: string, range: string, ids: seq<Identity>)
    requires Usable(ids)
    ensures InjectAll(metric, inner, range, ids).Ok?
  {
    if |ids| > 0 { InjectAllOk(metric, inner, range, ids[1..]); }
  }

  lemma {:induction false} FallsQuiet(l: Lex, q: string, x: string)
    requires l.quote == NUL && l.depth > 0 && Quiet(q, PAREN)
    ensures Falls(l, q + x) <==> Falls(l, x)
  {
    if q == "" {
      assert q + x == x;
    } else {
      assert (q + x)[1..] == q[1..] + x;
      FallsQuiet(l, q[1..], x);
    }
  }

  lemma {:induction false} FallsMark(l: Lex, x: string, c: char)
    requires l.quote == NUL && l.depth > 0 && NoQuotes(x) && !IsQuote(c) && c != '(' && c != ')'
    ensures Falls(l, x + [c]) <==> Falls(l, x)
    decreases |x|
  {
    if x == "" {
      assert x + [c] == [c] && [c][1..] == "";
    } else {
      assert (x + [c])[1..] == x[1..] + [c];
      if Next(l, x[0], PAREN).depth > 0 { FallsMark(Next(l, x[0], PAREN), x[1..], c); }
    }
  }

  /** The text of a selector between its name and a closing mark. */
  lemma GroupFalls(metric: string, open: char, r: string, close: char)
    requires IsIdent(metric) && NoQuotes(r) && open in "[{" && close in "]}"
    ensures Falls(PLAIN, metric + ([open] + (r + [close]))) <==> Overcloses(r)
  {
    hide Falls, Overcloses;
    var q := metric + [open];
    assert metric + ([open] + (r + [close])) == q + (r + [close]);
    NameQuiet(metric, open);
    FallsQuiet(PLAIN, q, r + [close]);
    FallsMark(PLAIN, r, close);
    Overclosing(r);
  }

  lemma NameQuiet(metric: string, open: char)
    requires IsIdent(metric) && open in "[{"
    ensures Quiet(metric + [open], PAREN)
  {
    assert forall c :: IsIdentCont(c) ==> !IsQuote(c) && c != '(' && c != ')';
  }

  /** Where a bare metric stands in the call, and what follows it. */
  lemma NamedCall(metric: string, r: string)
    requires IsIdent(metric) && r != "" && (r[0] == '[' || r[0] == '{')
    ensures var t, n := "(" + (metric + r), |metric|;
            n > 0 && BlankLen(t[1..]) == 0 && IdentLen(t[1..]) == n && BlankLen(t[1 + n..]) == 0 &&
            t[1..1 + n] == metric && t[1 + n..] == r && t[1 + n] == r[0]
  {
    var t, n := "(" + (metric + r), |metric|;
    assert t[1..] == metric + r;
    IdentLenOf(metric, r);
    assert (metric + r)[0] == metric[0];
    assert t[1 + n..] == r;
  }

  lemma RangeTaken(metric: string, r: string, k: string, ids: seq<Identity>)
    requires IsName(metric) && Quiet(r, BRACKET) && Usable(ids)
    ensures var p := ScopedParts(metric, "", "[" + (r + ("]" + k)), ids); p.Ok? && p.value.taken == |r| + 2
  {
    hide InjectAll, StripIdentity, IsKeyword;
    var rest := "[" + (r + ("]" + k));
    GroupEndOf(r, k, BRACKET);
    assert rest[0..] == rest && !IsBlank(rest[0]);
    RejectOf(Sel(metric, "", None, "", None), ids);
    InjectAllOk(metric, StripIdentity(""), rest[..|r| + 2], ids);
  }

  lemma RangeEnd(metric: string, r: string, k: string, ids: seq<Identity>)
    requires IsName(metric) && Quiet(r, BRACKET) && Usable(ids)
    ensures SelectorEnd("(" + (metric + ("[" + (r + ("]" + k)))), ids) == Some(|metric| + |r| + 3)
  {
    hide ScopedParts, GroupEnd, IdentLen, BlankLen, Quiet, IsIdent, IsKeyword;
    NamedCall(metric, "[" + (r + ("]" + k)));
    RangeTaken(metric, r, k, ids);
  }

  /** A range call on a metric: a range without quotes or brackets makes the slice run backwards if
      and only if some prefix of it closes one parenthesis more than it opens. */
  lemma ParenInRangeExact(fn: string, metric: string, r: string, k: string, ids: seq<Identity>)
    requires IsName(fn) && IsRangeFunction(Lower(fn)) && IsName(metric) && Usable(ids)
    requires Quiet(r, BRACKET)
    ensures Step(fn + ("(" + (metric + ("[" + (r + ("]" + k))))), ids) == Err(SliceOutOfRange) <==> Overcloses(r)
  {
    hide RangeCall, IsRangeFunction, IsKeyword, IsIdent, Step, SelectorEnd, Falls, Overcloses;
    var t, m := "(" + (metric + ("[" + (r + ("]" + k)))), |metric| + |r| + 3;
    RangeEnd(metric, r, k, ids);
    StepSlice(fn, t, ids);
    SliceExact(t, fn, ids);
    assert t == "(" + (metric + ("[" + (r + "]"))) + k;
    assert t[1..m] == metric + ("[" + (r + "]"));
    GroupFalls(metric, '[', r, ']');
  }

  lemma BracesTaken(metric: string, b: string, k: string, ids: seq<Identity>)
    requires Usable(ids) && RejectForeign(Trim(b), ids) == None && RangeAt(k) == Ok(0)
    ensures var p := ScopedParts(metric, Trim(b), k, ids); p.Ok? && p.value.taken == 0
  {
    hide InjectAll, StripIdentity, RejectForeign, RangeAt;
    InjectAllOk(metric, StripIdentity(Trim(b)), k[..0], ids);
  }

  lemma BracesEnd(metric: string, b: string, k: string, ids: seq<Identity>)
    requires IsName(metric) && Quiet(b, BRACE) && Usable(ids) && RejectForeign(Trim(b), ids) == None && RangeAt(k) == Ok(0)
    ensures SelectorEnd("(" + (metric + ("{" + (b + ("}" + k)))), ids) == Some(|metric| + |b| + 3)
  {
    hide ScopedParts, GroupEnd, IdentLen, BlankLen, IsIdent, IsKeyword, RejectForeign, RangeAt;
    var r := "{" + (b + ("}" + k));
    var t, at := "(" + (metric + r), 1 + |metric|;
    NamedCall(metric, r);
    GroupEndOf(b, k, BRACE);
    assert t[at + |b| + 2..] == k by { assert t[at..][|b| + 2..] == k; }
    assert r[1..|b| + 1] == b;
    BracesTaken(metric, b, k, ids);
  }

  /** The same for braces without quotes or further braces, when what they ask for is accepted and
      no range follows. */
  lemma ParenInBracesExact(fn: string, metric: string, b: string, k: string, ids: seq<Identity>)
    requires IsName(fn) && IsRangeFunction(Lower(fn)) && IsName(metric) && Usable(ids)
    requires Quiet(b, BRACE) && RejectForeign(Trim(b), ids) == None && RangeAt(k) == Ok(0)
    ensures Step(fn + ("(" + (metric + ("{" + (b + ("}" + k))))), ids) == Err(SliceOutOfRange) <==> Overcloses(b)
  {
    hide RangeCall, IsRangeFunction, IsKeyword, IsIdent, Step, SelectorEnd, Falls, Overcloses, RejectForeign, RangeAt;
    var t, m := "(" + (metric + ("{" + (b + ("}" + k)))), |metric| + |b| + 3;
    BracesEnd(metric, b, k, ids);
    StepSlice(fn, t, ids);
    SliceExact(t, fn, ids);
    assert t == "(" + (metric + ("{" + (b + "}"))) + k;
    assert t[1..m] == metric + ("{" + (b + "}"));
    GroupFalls(metric, '{', b, '}');
  }

  /** So a range that closes a parenthesis it does not open makes the scanner fail there. */
  lemma ParenInRangePanics(fn: string, metric: string, r: string, k: string, ids: seq<Identity>)
    requires IsName(fn) && IsRangeFunction(Lower(fn)) && IsName(metric) && Usable(ids)
    requires Quiet(r, BRACKET) && Overcloses(r)
    ensures Rewrite(fn + ("(" + (metric + ("[" + (r + ("]" + k))))), ids) == Err(SliceOutOfRange)
  {
    hide IsRangeFunction, IsKeyword, IsIdent, Step, Overcloses;
    ParenInRangeExact(fn, metric, r, k, ids);
  }
}
