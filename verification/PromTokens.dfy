/** The scanner on each kind of token, in front of any text that may follow it. */
module PromTokens {
  import opened Text
  import opened PromLexer
  import opened PromScope
  import opened PromTree

  // ----- cursor helpers on known text

  ghost predicate NoIdent(k: string) { k == "" || !IsIdentCont(k[0]) }
  ghost predicate NoDigit(k: string) { k == "" || !IsDigit(k[0]) }

  lemma {:induction false} BlankLenOf(g: string, k: string)
    requires Gap(g)
    ensures BlankLen(g + k) == |g| + BlankLen(k)
  {
    if g == "" {
      assert g + k == k;
    } else {
      assert (g + k)[1..] == g[1..] + k;
      BlankLenOf(g[1..], k);
    }
  }

  lemma {:induction false} DigitLenOf(d: string, k: string)
    requires Digits(d) && NoDigit(k)
    ensures DigitLen(d + k) == |d|
  {
    if d == "" {
      assert d + k == k;
    } else {
      assert (d + k)[1..] == d[1..] + k;
      DigitLenOf(d[1..], k);
    }
  }

  lemma {:induction false} ContLenOf(w: string, k: string)
    requires forall i :: 0 <= i < |w| ==> IsIdentCont(w[i])
    requires NoIdent(k)
    ensures ContLen(w + k) == |w|
  {
    if w == "" {
      assert w + k == k;
    } else {
      assert (w + k)[1..] == w[1..] + k;
      ContLenOf(w[1..], k);
    }
  }

  lemma IdentLenOf(w: string, k: string)
    requires IsIdent(w) && NoIdent(k)
    ensures IdentLen(w + k) == |w| && (w + k)[..|w|] == w && (w + k)[|w|..] == k
  {
    assert (w + k)[1..] == w[1..] + k;
    ContLenOf(w[1..], k);
  }

  lemma {:induction false} QuoteEndOf(body: string, q: char, k: string)
    requires IsQuote(q) && StringBody(body, q)
    ensures QuoteEnd(body + ([q] + k), q) == Some(|body| + 1)
    decreases |body|
  {
    var s := body + ([q] + k);
    if body == "" {
      assert s[0] == q;
    } else if body[0] == '\\' {
      assert s[2..] == body[2..] + ([q] + k);
      QuoteEndOf(body[2..], q, k);
    } else {
      assert s[1..] == body[1..] + ([q] + k);
      QuoteEndOf(body[1..], q, k);
    }
  }

  // ----- groups

  lemma CloseEndCons(l: Lex, c: char, k: string, g: Group)
    ensures Run(l, [c] + k, g) == Run(Next(l, c, g), k, g)
    ensures CloseEnd(l, [c] + k, g) ==
            if Next(l, c, g).depth == 0 then Some(1) else Later(1, CloseEnd(Next(l, c, g), k, g))
  {
    assert ([c] + k)[1..] == k;
  }

  /** Text that leaves the scanner's group state alone. */
  ghost predicate Quiet(x: string, g: Group) {
    forall i :: 0 <= i < |x| ==> !IsQuote(x[i]) && x[i] != g.open && x[i] != g.close
  }

  lemma {:induction false} CloseEndQuiet(l: Lex, x: string, k: string, g: Group)
    requires l.quote == NUL && l.depth > 0 && Quiet(x, g)
    ensures CloseEnd(l, x + k, g) == Later(|x|, CloseEnd(l, k, g))
    ensures Run(l, x + k, g) == Run(l, k, g)
  {
    if x == "" {
      assert x + k == k;
    } else {
      assert x + k == [x[0]] + (x[1..] + k);
      CloseEndCons(l, x[0], x[1..] + k, g);
      CloseEndQuiet(l, x[1..], k, g);
    }
  }

  lemma {:induction false} CloseEndBody(l: Lex, body: string, k: string, g: Group)
    requires IsQuote(l.quote) && !l.esc && l.depth > 0 && StringBody(body, l.quote)
    ensures CloseEnd(l, body + ([l.quote] + k), g) == Later(|body| + 1, CloseEnd(l.(quote := NUL), k, g))
    ensures Run(l, body + ([l.quote] + k), g) == Run(l.(quote := NUL), k, g)
    decreases |body|
  {
    var t := [l.quote] + k;
    if body == "" {
      assert body + t == t;
      CloseEndCons(l, l.quote, k, g);
    } else {
      assert body + t == [body[0]] + (body[1..] + t);
      CloseEndCons(l, body[0], body[1..] + t, g);
      if body[0] == '\\' {
        assert body[1..] + t == [body[1]] + (body[2..] + t);
        CloseEndCons(l.(esc := true), body[1], body[2..] + t, g);
        CloseEndBody(l, body[2..], k, g);
      } else {
        CloseEndBody(l, body[1..], k, g);
      }
    }
  }

  lemma CloseEndQuoted(l: Lex, s: Quoted, k: string, g: Group)
    requires l.quote == NUL && !l.esc && l.depth > 0 && WfQuoted(s)
    ensures CloseEnd(l, PrintQuoted(s, k), g) == Later(|s.body| + 2, CloseEnd(l, k, g))
    ensures Run(l, PrintQuoted(s, k), g) == Run(l, k, g)
  {
    CloseEndCons(l, s.q, s.body + ([s.q] + k), g);
    CloseEndBody(l.(quote := s.q), s.body, k, g);
  }

  /** A group that holds only quiet text. */
  lemma GroupEndOf(x: string, k: string, g: Group)
    requires Quiet(x, g) && GroupMarks(g)
    ensures GroupEnd([g.open] + (x + ([g.close] + k)), g) == Some(|x| + 2)
  {
    var s := [g.open] + (x + ([g.close] + k));
    assert s[1..] == x + ([g.close] + k);
    CloseEndQuiet(PLAIN, x, [g.close] + k, g);
    CloseEndCons(PLAIN, g.close, k, g);
  }

  // ----- one token at a time

  lemma RewriteStep(x: string, k: string, out: string, ids: seq<Identity>)
    requires x != "" && Step(x + k, ids) == Ok(Emit(out, |x|))
    ensures Rewrite(x + k, ids) == Prepend(out, Rewrite(k, ids))
  {
    assert (x + k)[|x|..] == k;
  }

  /** A byte the scanner copies and forgets. */
  predicate IsMark(c: char) {
    !IsQuote(c) && !IsDigit(c) && c != '.' && c != '[' && c != '{' && !IsIdentStart(c)
  }

  lemma RewriteMark(c: char, k: string, ids: seq<Identity>)
    requires IsMark(c)
    ensures Rewrite([c] + k, ids) == Prepend([c], Rewrite(k, ids))
  {
    RewriteStep([c], k, [c], ids);
  }

  lemma {:induction false} RewriteMarks(x: string, k: string, ids: seq<Identity>)
    requires forall i :: 0 <= i < |x| ==> IsMark(x[i])
    ensures Rewrite(x + k, ids) == Prepend(x, Rewrite(k, ids))
  {
    hide Rewrite;
    if x == "" {
      assert x + k == k;
      if Rewrite(k, ids).Ok? { assert "" + Rewrite(k, ids).value == Rewrite(k, ids).value; }
    } else {
      assert x + k == [x[0]] + (x[1..] + k);
      RewriteMark(x[0], x[1..] + k, ids);
      RewriteMarks(x[1..], k, ids);
      if Rewrite(k, ids).Ok? {
        assert [x[0]] + (x[1..] + Rewrite(k, ids).value) == x + Rewrite(k, ids).value;
      }
    }
  }

  lemma RewriteGap(g: string, k: string, ids: seq<Identity>)
    requires Gap(g)
    ensures Rewrite(g + k, ids) == Prepend(g, Rewrite(k, ids))
  {
    RewriteMarks(g, k, ids);
  }

  lemma RewriteQuoted(s: Quoted, k: string, ids: seq<Identity>)
    requires WfQuoted(s)
    ensures Rewrite(PrintQuoted(s, k), ids) == Prepend(PrintQuoted(s, ""), Rewrite(k, ids))
  {
    var x := PrintQuoted(s, "");
    assert PrintQuoted(s, k) == x + k;
    assert (x + k)[1..] == s.body + ([s.q] + k);
    QuoteEndOf(s.body, s.q, k);
    assert (x + k)[..|x|] == x;
    RewriteStep(x, k, x, ids);
  }

  lemma ExponentLenOf(x: string, k: string)
    requires IsExponent(x) && NoIdent(k)
    ensures ExponentLen(x + k) == |x|
  {
    if x != "" {
      var sign := if x[1] == '+' || x[1] == '-' then 1 else 0;
      DropInto(x, k, 1 + sign);
      DigitLenOf(x[1 + sign..], k);
    } else {
      assert x + k == k;
    }
  }

  lemma FractionLenOf(f: string, t: string)
    requires IsFraction(f) && NoDigit(t) && (t == "" || t[0] != '.')
    ensures FractionLen(f + t) == |f| && NoDigit(f + t)
  {
    if f != "" {
      assert (f + t)[1..] == f[1..] + t;
      DigitLenOf(f[1..], t);
    } else {
      assert f + t == t;
    }
  }

  lemma NumberLenAt(s: string, w: string, f: string, t: string, e: nat)
    requires s == w + (f + t) && DigitLen(s) == |w| && FractionLen(f + t) == |f| && ExponentLen(t) == e
    ensures NumberLen(s) == |w| + |f| + e
  {
    assert s[|w|..] == f + t;
    assert s[|w| + |f|..] == t;
  }

  lemma NumberLenOf(n: Number, k: string)
    requires WfNumber(n) && NoIdent(k) && (k == "" || k[0] != '.')
    ensures NumberLen(PrintNumber(n, k)) == |n.whole| + |n.fraction| + |n.exponent|
    ensures NumberStarts(PrintNumber(n, k))
  {
    var t := n.exponent + k;
    ExponentLenOf(n.exponent, k);
    FractionLenOf(n.fraction, t);
    DigitLenOf(n.whole, n.fraction + t);
    hide ExponentLen, DigitLen, FractionLen;
    NumberLenAt(PrintNumber(n, k), n.whole, n.fraction, t, |n.exponent|);
  }

  lemma NumberPrint(n: Number, k: string)
    ensures PrintNumber(n, k) == PrintNumber(n, "") + k
  {
    assert n.exponent + "" == n.exponent;
    Assoc(n.fraction, n.exponent, k);
    Assoc(n.whole, n.fraction + n.exponent, k);
  }

  lemma RewriteNumber(n: Number, k: string, ids: seq<Identity>)
    requires WfNumber(n) && NoIdent(k) && (k == "" || k[0] != '.')
    ensures Rewrite(PrintNumber(n, k), ids) == Prepend(PrintNumber(n, ""), Rewrite(k, ids))
  {
    hide *;
    var x := PrintNumber(n, "");
    NumberLenOf(n, k);
    NumberPrint(n, k);
    NumberPrintLen(n);
    StepNumber(x, k, ids);
    RewriteStep(x, k, x, ids);
  }

  lemma NumberPrintLen(n: Number)
    requires WfNumber(n)
    ensures |PrintNumber(n, "")| == |n.whole| + |n.fraction| + |n.exponent| > 0
  {
  }

  lemma StepNumber(x: string, k: string, ids: seq<Identity>)
    requires NumberStarts(x + k) && NumberLen(x + k) == |x|
    ensures Step(x + k, ids) == Ok(Emit(x, |x|))
  {
    assert (x + k)[..|x|] == x;
  }

  lemma RewriteBracket(text: string, k: string, ids: seq<Identity>)
    requires Inert(text)
    ensures Rewrite("[" + (text + ("]" + k)), ids) == Prepend("[" + (text + "]"), Rewrite(k, ids))
  {
    var x := "[" + (text + "]");
    assert "[" + (text + ("]" + k)) == x + k;
    GroupEndOf(text, k, BRACKET);
    assert (x + k)[..|x|] == x;
    RewriteStep(x, k, x, ids);
  }

  lemma StepWord(w: string, k: string, ids: seq<Identity>)
    requires IsIdent(w) && NoIdent(k)
    ensures Step(w + k, ids) == Word(w + k, |w|, ids)
  {
    hide Word, IdentLen, NumberLen;
    IdentLenOf(w, k);
    assert (w + k)[0] == w[0];
  }

  /** A keyword that takes no label list is copied. */
  lemma RewriteKeyword(w: string, k: string, ids: seq<Identity>)
    requires IsIdent(w) && NoIdent(k) && IsKeyword(Lower(w))
    requires IsGroupingKeyword(Lower(w)) ==> BlankLen(k) == |k| || k[BlankLen(k)] != '('
    ensures Rewrite(w + k, ids) == Prepend(w, Rewrite(k, ids))
  {
    IdentLenOf(w, k);
    StepWord(w, k, ids);
    RewriteStep(w, k, w, ids);
  }

  lemma GroupingLenOf(g: string, list: string, k: string)
    requires Gap(g) && Inert(list)
    ensures GroupingLen(g + ("(" + (list + (")" + k)))) == |g| + |list| + 2
  {
    var t := "(" + (list + (")" + k));
    BlankLenOf(g, t);
    assert (g + t)[|g|..] == t;
    GroupEndOf(list, k, PAREN);
  }

  lemma WordGrouping(s: string, n: nat, ids: seq<Identity>)
    requires 0 < n <= |s| && IsGroupingKeyword(Lower(s[..n]))
    ensures Word(s, n, ids) == Ok(Emit(s[..n + GroupingLen(s[n..])], n + GroupingLen(s[n..])))
  {
    GroupingIsKeyword(Lower(s[..n]));
  }

  /** A grouping keyword is copied with its label list. */
  lemma RewriteLabels(w: string, g: string, list: string, k: string, ids: seq<Identity>)
    requires IsIdent(w) && IsGroupingKeyword(Lower(w)) && Gap(g) && Inert(list)
    ensures Rewrite(w + (g + ("(" + (list + (")" + k)))), ids) ==
            Prepend(w + (g + ("(" + (list + ")"))), Rewrite(k, ids))
  {
    hide Rewrite, Step, Word, GroupingLen;
    var t := g + ("(" + (list + (")" + k)));
    var x := w + (g + ("(" + (list + ")")));
    assert w + t == x + k;
    IdentLenOf(w, t);
    StepWord(w, t, ids);
    GroupingLenOf(g, list, k);
    WordGrouping(w + t, |w|, ids);
    assert (x + k)[..|x|] == x;
    RewriteStep(x, k, x, ids);
  }

  lemma WordCallee(s: string, n: nat, j: nat, ids: seq<Identity>)
    requires 0 < n <= j < |s| && j == n + BlankLen(s[n..]) && s[j] == '('
    requires !IsKeyword(Lower(s[..n]))
    requires IsRangeFunction(Lower(s[..n])) ==> RangeCall(s[j..], s[..n], ids) == Ok(None)
    ensures Word(s, n, ids) == Ok(Emit(s[..n], n))
  {
    hide IsKeyword, IsAggregator, IsRangeFunction, AggregationFollows, RangeCall, BraceSelector, Selector;
  }

  /** The name of a call that is not a range function on a selector is copied. */
  lemma RewriteCallee(f: string, g: string, t: string, ids: seq<Identity>)
    requires IsIdent(f) && !IsKeyword(Lower(f)) && Gap(g) && t != "" && t[0] == '('
    requires IsRangeFunction(Lower(f)) ==> RangeCall(t, f, ids) == Ok(None)
    ensures Rewrite(f + (g + t), ids) == Prepend(f, Rewrite(g + t, ids))
  {
    hide Rewrite, Step, Word, RangeCall;
    IdentLenOf(f, g + t);
    StepWord(f, g + t, ids);
    BlankLenOf(g, t);
    assert (f + (g + t))[|f| + |g|..] == t;
    WordCallee(f + (g + t), |f|, |f| + |g|, ids);
    RewriteStep(f, g + t, f, ids);
  }

  lemma WordAggregator(s: string, n: nat, j: nat, ids: seq<Identity>)
    requires 0 < n <= j < |s| && j == n + BlankLen(s[n..]) && s[j] != '('
    requires !IsKeyword(Lower(s[..n])) && IsAggregator(Lower(s[..n])) && AggregationFollows(s[j..])
    ensures Word(s, n, ids) == Ok(Emit(s[..n], n))
  {
    hide IsKeyword, IsAggregator, AggregationFollows, RangeCall, BraceSelector, Selector;
  }

  lemma AggregationFollowsOf(w: string, g2: string, t: string)
    requires IsIdent(w) && Lower(w) in ["by", "without"] && Gap(g2) && t != "" && t[0] == '('
    ensures AggregationFollows(w + (g2 + t))
  {
    IdentLenOf(w, g2 + t);
    BlankLenOf(g2, t);
  }

  /** An aggregator in front of its grouping clause is copied. */
  lemma RewriteAggregator(f: string, g: string, w: string, g2: string, t: string, ids: seq<Identity>)
    requires IsIdent(f) && IsAggregator(Lower(f)) && !IsKeyword(Lower(f)) && Gap(g) && g != ""
    requires IsIdent(w) && Lower(w) in ["by", "without"] && Gap(g2) && t != "" && t[0] == '('
    ensures Rewrite(f + (g + (w + (g2 + t))), ids) == Prepend(f, Rewrite(g + (w + (g2 + t)), ids))
  {
    hide Rewrite, Step, Word, AggregationFollows;
    var u := w + (g2 + t);
    AggregationFollowsOf(w, g2, t);
    IdentLenOf(f, g + u);
    StepWord(f, g + u, ids);
    assert u[0] == w[0];
    BlankLenOf(g, u);
    assert (f + (g + u))[|f| + |g|..] == u;
    WordAggregator(f + (g + u), |f|, |f| + |g|, ids);
    RewriteStep(f, g + u, f, ids);
  }
}
