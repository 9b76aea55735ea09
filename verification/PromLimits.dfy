/** Where the scanner leaves the fragment: concrete queries on which scoping is not the tree
    transformation, or does not mean what it should. */
module PromLimits {
  import opened Text
  import opened PromLexer
  import opened PromScope
  import opened PromTree
  import opened PromScopeTree
  import opened PromTokens
  import opened PromMatchers
  import opened PromSelectors
  import opened PromSelectStep
  import opened PromLexical
  import opened PromMeaning
  import opened PromFragment
  import opened PromSlice
  import opened PromRanges
  import opened PromAcceptance

  /** A duration outside brackets, as after `offset`, is read as a number followed by a metric
      named like its unit, and the unit is scoped. */
  lemma DurationIsScoped(digits: string, unit: string, k: string, ids: seq<Identity>)
    requires |ids| > 0 && digits != "" && Digits(digits) && IsName(unit) && unit[0] !in "eE" && Follow(k)
    ensures Rewrite(digits + (unit + k), ids) ==
            Prepend(digits, Resume(Scope(Select(Sel(unit, "", None, "", None)), ids), Rewrite(k, ids)))
  {
    hide Rewrite, Scope, Follow, IsKeyword;
    var u := unit + k;
    DurationLen(digits, u);
    StepNumber(digits, u, ids);
    RewriteStep(digits, u, digits, ids);
    RewriteSelect(Sel(unit, "", None, "", None), k, ids);
  }

  lemma DurationLen(digits: string, u: string)
    requires digits != "" && Digits(digits) && u != "" && IsIdentStart(u[0]) && u[0] !in "eE"
    ensures NumberStarts(digits + u) && NumberLen(digits + u) == |digits|
  {
    DigitLenOf(digits, u);
    Cut(digits, u);
  }

  /** The scanner knows no comments: what stands between two quotes is copied as a string, even
      when a `#` before each of them makes the quotes part of comments. */
  lemma CommentIsCopied(x: string, k: string, ids: seq<Identity>)
    requires StringBody(x, '"')
    ensures Rewrite("#" + ("\"" + (x + ("\"" + k))), ids) == Prepend("#" + ("\"" + (x + "\"")), Rewrite(k, ids))
  {
    hide Rewrite, StringBody;
    var s := Quoted('"', x);
    assert PrintQuoted(s, k) == "\"" + (x + ("\"" + k)) && PrintQuoted(s, "") == "\"" + (x + "\"") by { Quotes(x, k); }
    RewriteQuoted(s, k, ids);
    RewriteMark('#', PrintQuoted(s, k), ids);
    PrependTwice("#", PrintQuoted(s, ""), Rewrite(k, ids));
  }

  lemma Quotes(x: string, k: string)
    ensures PrintQuoted(Quoted('"', x), k) == "\"" + (x + ("\"" + k)) && PrintQuoted(Quoted('"', x), "") == "\"" + (x + "\"")
  {
    assert "\"" + "" == "\"";
  }

  /** Arguments after the selector of a range call are copied as they are if and only if there is no
      brace among them. */
  lemma ExtraIsCopied(fn: string, metric: string, r: string, extra: string, k: string, tail: string, ids: seq<Identity>)
    requires IsName(metric) && Quiet(r, BRACKET) && Usable(ids)
    requires tail == "[" + (r + ("]" + (extra + (")" + k))))
    requires GroupEnd("(" + (metric + tail), PAREN) == Some(|metric| + |r| + |extra| + 4)
    ensures var parts := ScopedParts(metric, "", tail, ids);
            parts.Ok? && RangeCall("(" + (metric + tail), fn, ids) ==
                         Ok(if Braced(extra) then None
                            else Some(Emit(Union(Calls(fn, parts.value.parts, extra)), |metric| + |r| + |extra| + 4)))
  {
    hide *;
    assert tail != "" && tail[0] == '[';
    var t := "(" + (metric + tail);
    NameIdent(metric);
    RangeTaken(metric, r, extra + (")" + k), ids);
    BareCall(metric, tail, fn, ids);
    ExtraText(metric, r, extra, k, tail);
    FromExtra(t, fn, metric, tail, |r| + 2, extra, ids);
  }

  lemma BareCall(metric: string, tail: string, fn: string, ids: seq<Identity>)
    requires IsIdent(metric) && tail != "" && tail[0] == '['
    ensures var t := "(" + (metric + tail);
            RangeCall(t, fn, ids) == RangeCallFrom(t, fn, metric, "", 1 + |metric|, ids) && t[1 + |metric|..] == tail
  {
    hide *;
    NamedCall(metric, tail);
    RangeCallBare("(" + (metric + tail), fn, 1, |metric|, 1 + |metric|, ids);
  }

  lemma FromExtra(t: string, fn: string, metric: string, tail: string, n: nat, extra: string, ids: seq<Identity>)
    requires 1 + |metric| + n + |extra| < |t| && t[1 + |metric|..] == tail
    requires GroupEnd(t, PAREN) == Some(2 + |metric| + n + |extra|)
    requires t[1 + |metric| + n..1 + |metric| + n + |extra|] == extra
    requires ScopedParts(metric, "", tail, ids).Ok? && ScopedParts(metric, "", tail, ids).value.taken == n
    ensures RangeCallFrom(t, fn, metric, "", 1 + |metric|, ids) ==
            Ok(if Braced(extra) then None
               else Some(Emit(Union(Calls(fn, ScopedParts(metric, "", tail, ids).value.parts, extra)), 2 + |metric| + n + |extra|)))
  {
    hide ScopedParts, GroupEnd, Union, Calls;
  }

  lemma NameIdent(metric: string)
    requires IsName(metric)
    ensures IsIdent(metric)
  {
  }

  lemma ExtraText(metric: string, r: string, extra: string, k: string, tail: string)
    requires tail == "[" + (r + ("]" + (extra + (")" + k))))
    ensures var t := "(" + (metric + tail);
            && |t| >= |metric| + |r| + |extra| + 4
            && t[|metric| + |r| + 3..|metric| + |r| + |extra| + 3] == extra
  {
    var a := "(" + (metric + ("[" + (r + "]")));
    assert "(" + (metric + tail) == a + (extra + (")" + k));
    assert |a| == |metric| + |r| + 3;
  }

  /** So a selector in a further call there is not scoped. */
  lemma CallInExtraIsCopied(fn: string, metric: string, r: string, u: string, v: string, k: string, ids: seq<Identity>)
    requires IsName(metric) && Inert(r) && Inert(u) && Inert(v) && Usable(ids)
    ensures var extra := u + ("(" + (v + ")"));
            var tail := "[" + (r + ("]" + (extra + (")" + k))));
            var parts := ScopedParts(metric, "", tail, ids);
            parts.Ok? && RangeCall("(" + (metric + tail), fn, ids) ==
                         Ok(Some(Emit(Union(Calls(fn, parts.value.parts, extra)), |metric| + |r| + |extra| + 4)))
  {
    hide *;
    var extra := u + ("(" + (v + ")"));
    var tail := "[" + (r + ("]" + (extra + (")" + k))));
    ExtraCloses(metric, r, u, v, k, extra, tail);
    ExtraIsCopied(fn, metric, r, extra, k, tail, ids);
  }

  lemma ExtraCloses(metric: string, r: string, u: string, v: string, k: string, extra: string, tail: string)
    requires IsName(metric) && Inert(r) && Inert(u) && Inert(v)
    requires extra == u + ("(" + (v + ")")) && tail == "[" + (r + ("]" + (extra + (")" + k))))
    ensures Quiet(r, BRACKET) && !Braced(extra)
    ensures GroupEnd("(" + (metric + tail), PAREN) == Some(|metric| + |r| + |extra| + 4)
  {
    hide IsKeyword, CloseEnd, Next;
    var q, rest := (metric + "[") + (r + ("]" + u)), "(" + (v + (")" + (")" + k)));
    assert ("(" + (metric + tail))[1..] == q + rest;
    NameQuiet(metric, '[');
    MarksQuiet(metric, r, u);
    assert Quiet(v, PAREN);
    NestedClose(q, v, k);
  }

  lemma MarksQuiet(metric: string, r: string, u: string)
    requires Quiet(metric + "[", PAREN) && Inert(r) && Inert(u)
    ensures Quiet((metric + "[") + (r + ("]" + u)), PAREN)
  {
  }

  lemma NestedClose(q: string, v: string, k: string)
    requires Quiet(q, PAREN) && Quiet(v, PAREN)
    ensures CloseEnd(PLAIN, q + ("(" + (v + (")" + (")" + k)))), PAREN) == Some(|q| + |v| + 3)
  {
    hide CloseEnd, Quiet;
    var inner := v + (")" + (")" + k));
    CloseEndQuiet(PLAIN, q, "(" + inner, PAREN);
    CloseEndCons(PLAIN, '(', inner, PAREN);
    DoubleClose(v, k);
  }

  lemma DoubleClose(v: string, k: string)
    requires Quiet(v, PAREN)
    ensures CloseEnd(PLAIN.(depth := 2), v + (")" + (")" + k)), PAREN) == Some(|v| + 2)
  {
    hide CloseEnd, Quiet;
    var two, one := PLAIN.(depth := 2), ")" + k;
    CloseEndQuiet(two, v, ")" + one, PAREN);
    CloseEndCons(two, ')', one, PAREN);
    CloseEndCons(PLAIN, ')', k, PAREN);
  }

  // ----- a range vector under a function the scanner does not know

  /** `f(0.9, metric[range])` */
  function Applied(f: string, metric: string, range: string): Expr {
    Call(f, "", MoreArgs("", Num(Number("0", ".9", "")), "", LastArg(" ", Select(Sel(metric, "", None, "", Some(range))), "")))
  }

  /** With several WAFs the selector becomes an `or` of range vectors, which PromQL refuses, although
      the original is a query it takes. */
  lemma {:induction false} UnknownFunctionJoinsRanges(f: string, metric: string, range: string, ids: seq<Identity>)
    requires IsName(f) && !IsRangeFunction(Lower(f)) && IsName(metric) && Inert(range) && |ids| > 1 && Usable(ids)
    ensures var e := Applied(f, metric, range);
            && Wf(e) && Operable(e) && Scope(e, ids).Ok?
            && Wf(Scope(e, ids).value) && !Operable(Scope(e, ids).value)
            && Rewrite(Print(e), ids) == Ok(Print(Scope(e, ids).value))
  {
    hide IsName, Inert, Wf, Print, Scope, Rewrite, Parted, Operable, Covered, IsRangeFunction, Usable;
    var e := Applied(f, metric, range);
    AppliedWf(f, metric, range);
    AppliedOk(f, metric, range, ids);
    ScannerComputesScope(e, ids);
    ScopeWf(e, ids);
    ScopeOperable(e, ids);
  }

  lemma AppliedWf(f: string, metric: string, range: string)
    requires IsName(f) && !IsRangeFunction(Lower(f)) && IsName(metric) && Inert(range)
    ensures var e := Applied(f, metric, range); Wf(e) && Operable(e) && Parted(e) && !Covered(e)
  {
    hide IsName, Inert, IsRangeFunction;
    var n, s := Num(Number("0", ".9", "")), Select(Sel(metric, "", None, "", Some(range)));
    var last := LastArg(" ", s, "");
    assert Wf(n) by { NinePointWf(); }
    assert Wf(s) by { RangeSelWf(metric, range); }
    assert Operable(n) && Operable(s) && Parted(n) && Parted(s) && Covered(n) && !Covered(s);
    assert WfArgs(last) && OperableArgs(last) && PartedArgs(last) && !CoveredArgs(last);
    var args := MoreArgs("", n, "", last);
    assert WfArgs(args) && OperableArgs(args) && PartedArgs(args) && !CoveredArgs(args);
  }

  lemma RangeSelWf(metric: string, range: string)
    requires IsName(metric) && Inert(range)
    ensures WfSel(Sel(metric, "", None, "", Some(range)))
  {
    hide Inert;
  }

  lemma NinePointWf()
    ensures WfNumber(Number("0", ".9", ""))
  {
    var d := ".9"[1..];
    assert d == "9";
    assert Digits("0") && Digits(d);
  }

  lemma {:induction false} AppliedOk(f: string, metric: string, range: string, ids: seq<Identity>)
    requires |ids| > 0 && Usable(ids)
    ensures Scope(Applied(f, metric, range), ids).Ok?
  {
    hide UnionOf, Narrow;
    var n, s := Num(Number("0", ".9", "")), Sel(metric, "", None, "", Some(range));
    AllNarrow(s, ids);
    var last := LastArg(" ", Select(s), "");
    assert Scope(n, ids).Ok? && Scope(Select(s), ids).Ok?;
    assert ScopeArgs(last, ids).Ok?;
    assert ScopeArgs(MoreArgs("", n, "", last), ids).Ok?;
  }

  /** One such function of PromQL. */
  lemma QuantileOverTimeUnknown()
    ensures IsName("quantile_over_time") && !IsRangeFunction(Lower("quantile_over_time"))
  {
    var f := "quantile_over_time";
    hide Lower, Listed;
    assert forall i :: 0 <= i < |f| ==> 'a' <= f[i] <= 'z' || f[i] == '_';
    assert Lower(f) == f;
    ListedIn(f, KEYWORDS);
    ListedIn(f, RANGE_FUNCTIONS);
  }

  lemma {:induction false} QuantileOverTimeJoinsRanges(metric: string, range: string, ids: seq<Identity>)
    requires IsName(metric) && Inert(range) && |ids| > 1 && Usable(ids)
    ensures var e := Applied("quantile_over_time", metric, range);
            && Wf(e) && Operable(e) && Scope(e, ids).Ok? && !Operable(Scope(e, ids).value)
            && Rewrite(Print(e), ids) == Ok(Print(Scope(e, ids).value))
  {
    hide *;
    QuantileOverTimeUnknown();
    UnknownFunctionJoinsRanges("quantile_over_time", metric, range, ids);
  }

  // ----- a union after `group_left`

  function Bare(metric: string): Expr { Select(Sel(metric, "", None, "", None)) }

  /** `a * on(list) group_left b` */
  function Joined(a: string, list: string, b: string): Expr {
    Binary(Bare(a), " ", "*", [Labels(" ", "on", "", list), Plain(" ", "group_left")], " ", Bare(b))
  }

  /** With several WAFs the right side becomes a parenthesis, which the bare `group_left` takes for
      its label list: what is sent is no query of the fragment. */
  lemma GroupLeftTakesTheUnion(a: string, list: string, b: string, ids: seq<Identity>)
    requires IsName(a) && Inert(list) && IsName(b) && |ids| > 1 && Usable(ids)
    ensures var e := Joined(a, list, b);
            && Wf(e) && Scope(e, ids).Ok? && !Wf(Scope(e, ids).value)
            && Rewrite(Print(e), ids) == Ok(Print(Scope(e, ids).value))
  {
    hide IsName, Inert, Wf, Parted, Print, Scope, Rewrite;
    var e := Joined(a, list, b);
    JoinedOk(a, list, b, ids);
    JoinedWf(a, list, b);
    ScannerComputesScope(e, ids);
    ScopeWf(e, ids);
  }

  lemma {:induction false} JoinedOk(a: string, list: string, b: string, ids: seq<Identity>)
    requires |ids| > 0 && Usable(ids)
    ensures Scope(Joined(a, list, b), ids).Ok?
  {
    hide ScopeSel;
    BareOk(a, ids);
    BareOk(b, ids);
  }

  lemma BareOk(metric: string, ids: seq<Identity>)
    requires |ids| > 0 && Usable(ids)
    ensures Scope(Bare(metric), ids).Ok?
  {
    hide UnionOf, Narrow;
    AllNarrow(Sel(metric, "", None, "", None), ids);
  }

  lemma JoinedWf(a: string, list: string, b: string)
    requires IsName(a) && Inert(list) && IsName(b)
    ensures Wf(Joined(a, list, b)) && !Parted(Joined(a, list, b))
  {
    hide IsName, Inert, WfModifier, Wf, Spelled, First, Lower;
    var e := Joined(a, list, b);
    BareWf(a);
    BareWf(b);
    JoinMods(list);
    JoinSpelled(list);
    BinaryWf(e);
    assert !Parted(e) by { assert EndsBare(e.mods) && Leads(e.right); }
  }

  lemma BinaryWf(e: Expr)
    requires e.Binary? && Wf(e.left) && Wf(e.right) && Spelled(e.g1, e.op, e.mods, e.g2) && First(e.right) != '('
    ensures Wf(e)
  {
  }

  lemma JoinSpelled(list: string)
    requires WfModifier(Labels(" ", "on", "", list)) && WfModifier(Plain(" ", "group_left"))
    ensures Spelled(" ", "*", [Labels(" ", "on", "", list), Plain(" ", "group_left")], " ")
  {
    hide WfModifier;
    assert "*" == SYMBOLS[2];
  }

  lemma BareWf(metric: string)
    requires IsName(metric)
    ensures Wf(Bare(metric)) && First(Bare(metric)) != '('
  {
  }

  lemma JoinMods(list: string)
    requires Inert(list)
    ensures WfModifier(Labels(" ", "on", "", list)) && WfModifier(Plain(" ", "group_left"))
    ensures Lower("group_left") == "group_left"
  {
    hide Inert, Lower, IsIdent;
    OnWord();
    GroupLeftWord();
  }

  lemma OnWord()
    ensures Lower("on") == "on" && IsIdent("on")
  {
  }

  lemma GroupLeftWord()
    ensures Lower("group_left") == "group_left" && IsIdent("group_left")
  {
    hide Lower;
    var w := "group_left";
    assert forall i :: 0 <= i < |w| ==> 'a' <= w[i] <= 'z' || w[i] == '_';
    assert Lower(w) == w;
  }

  // ----- identity matchers that are dropped although they are not the WAF's own

  function Asks(value: string): Matcher { Matcher("waf_namespace", "", "=", "", Quoted('"', value)) }

  function Selecting(ms: Matchers): Sel { Sel("", "", Some(Braces("", Some(ms), "")), "", None) }

  predicate NoOperator(value: string) {
    !Occurs("=~", value) && !Occurs("!~", value) && !Occurs("!=", value)
  }

  lemma AsksIdentity(value: string)
    requires NoOperator(value)
    ensures OnIdentity(Asks(value))
  {
  }

  lemma NarrowAllOne(s: Sel, id: Identity)
    requires id.namespace != "" && id.name != ""
    ensures NarrowAll(s, [id]) == Ok([Narrow(s, id)])
  {
    hide Narrow;
    assert [id][1..] == [];
    assert NarrowAll(s, []) == Ok([]);
    assert [Narrow(s, id)] + [] == [Narrow(s, id)];
  }

  /** A selector of identity matchers only, accepted although one of them is not the WAF's own. */
  lemma ReplacedIdentity(w: World, s: Sel, id: Identity, i: nat, x: Series)
    requires s.metric == "" && |MatchersOf(s)| > i && Others(MatchersOf(s)) == []
    requires MatchersOf(s)[i] == Asks(MatchersOf(s)[i].value.body) && w.unquote(MatchersOf(s)[i].value.body) != id.namespace
    requires Wanted(MatchersOf(s), Identity("", "")).Ok? && Admits(Wanted(MatchersOf(s), Identity("", "")).value, id)
    requires id.namespace != "" && id.name != "" && Readable(w, id) && Member(x, id)
    ensures ScopeSel(s, [id]).Ok? && Picks(w, Narrow(s, id), x) && !Picks(w, s, x)
  {
    hide MatchersOf, Others, Readable, Narrow, Wanted;
    NarrowAllOne(s, id);
    assert [id][0] == id;
    NarrowPicks(w, s, id, x);
    assert !Holds(w, MatchersOf(s)[i], x);
  }

  /** `{waf_namespace=""}` is accepted for every WAF and replaced by the WAF's own labels: it
      picks every series of the WAF although the original picks none of them. */
  lemma EmptyIdentityIsReplaced(w: World, id: Identity, x: Series)
    requires id.namespace != "" && id.name != "" && Readable(w, id) && w.unquote("") == "" && Member(x, id)
    ensures var s := Selecting(Last(Asks(""), None));
            ScopeSel(s, [id]).Ok? && Picks(w, Narrow(s, id), x) && !Picks(w, s, x)
  {
    hide Readable, Member, Narrow, ScopeSel, Picks, ReadAsWritten;
    var s := Selecting(Last(Asks(""), None));
    assert NoOperator("");
    AsksIdentity("");
    assert MatchersOf(s) == [Asks("")];
    assert [Asks("")][1..] == [];
    assert Wanted([], Identity("", "")) == Ok(Identity("", ""));
    ReplacedIdentity(w, s, id, 0, x);
  }

  /** Of two matchers on the same identity label only the last is checked, and both are dropped. */
  lemma RepeatedIdentityIsReplaced(w: World, id: Identity, other: string, x: Series)
    requires id.namespace != "" && id.name != "" && Readable(w, id) && Member(x, id)
    requires NoOperator(other) && NoOperator(id.namespace) && w.unquote(other) != id.namespace
    ensures var s := Selecting(More(Asks(other), "", "", Last(Asks(id.namespace), None)));
            ScopeSel(s, [id]).Ok? && Picks(w, Narrow(s, id), x) && !Picks(w, s, x)
  {
    hide Readable, Member, Narrow, ScopeSel, Picks, ReadAsWritten, Occurs;
    var a, b := Asks(other), Asks(id.namespace);
    var s := Selecting(More(a, "", "", Last(b, None)));
    AsksIdentity(other);
    AsksIdentity(id.namespace);
    var ms := [a] + [b];
    assert Flatten(Last(b, None)) == [b];
    assert MatchersOf(s) == ms;
    assert ms[1..] == [b] && [b][1..] == [];
    assert Wanted([b], Identity(other, "")) == Wanted([], Identity(id.namespace, ""));
    assert Others([b]) == Others([]);
    ReplacedIdentity(w, s, id, 0, x);
  }

  /** With several WAFs a matcher that asks for one of them is dropped as well: the union has the
      series of the others. */
  lemma IdentityIsWidened(w: World, i: Identity, j: Identity, x: Series)
    requires Usable([i, j]) && Readable(w, j) && w.unquote(i.namespace) == i.namespace != j.namespace && NoOperator(i.namespace)
    requires Member(x, j)
    ensures var s := Selecting(Last(Asks(i.namespace), None));
            ScopeSel(s, [i, j]).Ok? && Picks(w, Narrow(s, j), x) && !Picks(w, s, x)
  {
    hide Readable, Narrow, ReadAsWritten, Occurs;
    var s, ids := Selecting(Last(Asks(i.namespace), None)), [i, j];
    AsksIdentity(i.namespace);
    assert MatchersOf(s) == [Asks(i.namespace)];
    assert [Asks(i.namespace)][1..] == [];
    assert Wanted([], Identity(i.namespace, "")) == Ok(Identity(i.namespace, ""));
    assert Others([]) == [];
    assert ids[0] == i && Admits(Identity(i.namespace, ""), ids[0]);
    AllNarrow(s, ids);
    NarrowPicks(w, s, j, x);
    assert !Holds(w, MatchersOf(s)[0], x);
  }

  // ----- the words of the language

  /** PromQL's aggregation operators. */
  const AGGREGATIONS := ["sum", "min", "max", "avg", "group", "stddev", "stdvar", "count", "count_values", "bottomk", "topk",
                         "quantile"]

  /** PromQL's words that are neither metrics nor functions. */
  const RESERVED := ["and", "or", "unless", "by", "without", "on", "ignoring", "group_left", "group_right", "bool", "offset",
                     "inf", "nan", "atan2"]

  /** The functions of a range vector, given first, that are distributed over a union. */
  const DISTRIBUTED := ["increase", "rate", "irate", "delta", "idelta", "deriv", "resets", "changes", "predict_linear",
                        "avg_over_time", "min_over_time", "max_over_time", "sum_over_time", "count_over_time",
                        "stddev_over_time", "stdvar_over_time", "last_over_time", "present_over_time", "absent_over_time",
                        "holt_winters"]

  /** The scanner knows all of them, in any case, and no others. */
  lemma WordsKnown(word: string)
    ensures IsAggregator(Lower(word)) <==> Lower(word) in AGGREGATIONS
    ensures IsKeyword(Lower(word)) <==> Lower(word) in RESERVED
    ensures IsRangeFunction(Lower(word)) <==> Lower(word) in DISTRIBUTED
    ensures IsGroupingKeyword(Lower(word)) <==> Lower(word) in ["by", "without", "on", "ignoring", "group_left", "group_right"]
  {
    hide Lower, Listed;
    ListedIn(Lower(word), AGGREGATORS);
    ListedIn(Lower(word), KEYWORDS);
    ListedIn(Lower(word), RANGE_FUNCTIONS);
    ListedIn(Lower(word), GROUPINGS);
  }

  lemma NotReserved(low: string)
    requires low in AGGREGATIONS
    ensures low !in RESERVED
  {
    var n :| 0 <= n < 12 && low == AGGREGATIONS[n];
    assert low == "min" || low == "max" || low == "sum" || low == "avg" || |low| > 3;
    assert low[0] in "sqtcm" || low == "avg" || low == "bottomk" || low == "group";
    forall i | 0 <= i < 14 ensures low != RESERVED[i] {
      assert RESERVED[i][0] in "sqtcm" ==> false;
      assert low == "group" ==> |RESERVED[i]| != 5 || RESERVED[i][0] == 'a';
    }
  }

  /** So an aggregation with a label list is in the fragment, whatever the aggregation. */
  lemma AggregationsWf(f: string, word: string, list: string, e: Expr)
    requires IsIdent(f) && Lower(f) in AGGREGATIONS && Inert(list) && Wf(e)
    requires IsIdent(word) && Lower(word) in ["by", "without"]
    ensures Wf(Aggregate(f, Labels(" ", word, " ", list), " ", LastArg("", e, "")))
  {
    hide Lower, Listed, IsIdent, Inert;
    WordsKnown(f);
    WordsKnown(word);
    NotReserved(Lower(f));
    var args := LastArg("", e, "");
    assert WfArgs(args);
  }

  /** The classes of ASCII characters by which the scanner cuts a query into words. */
  lemma CharClasses(c: char)
    requires c < '\U{80}'
    ensures IsIdentStart(c) <==> 'a' <= c <= 'z' || 'A' <= c <= 'Z' || c == '_' || c == ':'
    ensures IsIdentCont(c) <==> IsIdentStart(c) || '0' <= c <= '9'
    ensures PromLexer.IsBlank(c) <==> c in " \t\n\r"
    ensures PromLexer.IsQuote(c) <==> c in "\"'"
    ensures IsSpace(c) <==> c in " \t\n\r" || c == '\U{0B}' || c == '\U{0C}'
    ensures LowerChar(c) == if 'A' <= c <= 'Z' then (c as int - 'A' as int + 'a' as int) as char else c
  {
  }
}
