/** The matcher helpers on the printing of a matcher list. */
module PromMatchers {
  import opened Text
  import opened PromLexer
  import opened PromScope
  import opened PromTree
  import opened PromScopeTree
  import opened PromTokens

  function MatcherText(m: Matcher): string { PrintMatcher(m, "") }

  function Texts(ms: seq<Matcher>): seq<string> {
    if |ms| == 0 then [] else [MatcherText(ms[0])] + Texts(ms[1..])
  }

  lemma MatcherPrint(m: Matcher, k: string)
    ensures PrintMatcher(m, k) == MatcherText(m) + k
  {
    var v := PrintQuoted(m.value, "");
    assert PrintQuoted(m.value, k) == v + k;
    hide PrintQuoted;
    Assoc(m.g2, v, k);
    Assoc(m.op, m.g2 + v, k);
    Assoc(m.g1, m.op + (m.g2 + v), k);
    Assoc(m.name, m.g1 + (m.op + (m.g2 + v)), k);
  }

  // ----- groups around matchers

  /** A group whose marks do not occur in a matcher outside its value. */
  ghost predicate Around(g: Group) { g == LIST || g == BRACE || g == PAREN }

  lemma QuietParts(m: Matcher, g: Group)
    requires WfMatcher(m) && Around(g)
    ensures Quiet(m.name, g) && Quiet(m.g1, g) && Quiet(m.op, g) && Quiet(m.g2, g)
  {
  }

  ghost predicate Resting(l: Lex) { l.quote == NUL && !l.esc && l.depth > 0 }

  lemma CloseEndMatcher(l: Lex, m: Matcher, k: string, g: Group)
    requires Resting(l) && WfMatcher(m) && Around(g)
    ensures CloseEnd(l, PrintMatcher(m, k), g) == Later(|MatcherText(m)|, CloseEnd(l, k, g))
    ensures Run(l, PrintMatcher(m, k), g) == Run(l, k, g)
  {
    QuietParts(m, g);
    var v := PrintQuoted(m.value, k);
    CloseEndQuoted(l, m.value, k, g);
    CloseEndQuiet(l, m.g2, v, g);
    CloseEndQuiet(l, m.op, m.g2 + v, g);
    CloseEndQuiet(l, m.g1, m.op + (m.g2 + v), g);
    CloseEndQuiet(l, m.name, m.g1 + (m.op + (m.g2 + v)), g);
    hide CloseEnd, Run, Quiet, WfMatcher;
    assert |MatcherText(m)| == |m.name| + |m.g1| + |m.op| + |m.g2| + |m.value.body| + 2;
  }

  lemma QuietGap(x: string, g: Group)
    requires Gap(x) && Around(g)
    ensures Quiet(x, g)
  {
  }

  lemma CloseEndComma(l: Lex, x: string, k: string, g: Group)
    requires Resting(l) && Gap(x) && Around(g) && g != LIST
    ensures CloseEnd(l, x + ("," + k), g) == Later(|x| + 1, CloseEnd(l, k, g))
  {
    hide CloseEnd, Run, Gap;
    QuietGap(x, g);
    CloseEndQuiet(l, x, "," + k, g);
    CloseEndCons(l, ',', k, g);
  }

  lemma {:induction false} CloseEndMatchers(l: Lex, ms: Matchers, k: string, g: Group)
    requires Resting(l) && WfMatchers(ms) && Around(g) && g != LIST
    ensures CloseEnd(l, PrintMatchers(ms, k), g) == Later(|PrintMatchers(ms, "")|, CloseEnd(l, k, g))
  {
    hide CloseEnd, Run, WfMatcher, Around, PrintMatcher;
    match ms {
      case Last(m, None) =>
        CloseEndMatcher(l, m, k, g);
      case Last(m, Some(x)) =>
        CloseEndMatcher(l, m, x + ("," + k), g);
        CloseEndComma(l, x, k, g);
        MatcherPrint(m, x + ("," + ""));
      case More(m, before, after, rest) =>
        var t, t0 := PrintMatchers(rest, k), PrintMatchers(rest, "");
        CloseEndMatcher(l, m, before + ("," + (after + t)), g);
        CloseEndComma(l, before, after + t, g);
        QuietGap(after, g);
        CloseEndQuiet(l, after, t, g);
        CloseEndMatchers(l, rest, k, g);
        MatcherPrint(m, before + ("," + (after + t0)));
    }
  }

  // ----- splitting at the commas

  lemma MatcherSnug(m: Matcher)
    requires WfMatcher(m)
    ensures Snug(MatcherText(m)) && MatcherText(m) != ""
  {
    var t := MatcherText(m);
    assert t[0] == m.name[0];
    var v := PrintQuoted(m.value, "");
    assert v[|v| - 1] == m.value.q;
    assert t[|t| - 1] == v[|v| - 1];
  }

  lemma GapIsSpace(x: string)
    requires Gap(x)
    ensures AllSpace(x)
  {
  }

  /** Up to the next comma lies one matcher with blanks around it. */
  lemma SplitFirst(a: string, m: Matcher, b: string, k: string)
    requires Gap(a) && WfMatcher(m) && Gap(b)
    ensures CloseEnd(PLAIN, a + PrintMatcher(m, b + ("," + k)), LIST) == Some(|a| + |MatcherText(m)| + |b| + 1)
  {
    hide CloseEnd, Run, Gap, WfMatcher, PrintMatcher, Quiet, Around, MatcherText;
    var t := b + ("," + k);
    ListIsAround();
    QuietGap(a, LIST);
    QuietGap(b, LIST);
    CloseEndQuiet(PLAIN, a, PrintMatcher(m, t), LIST);
    CloseEndMatcher(PLAIN, m, t, LIST);
    CloseEndQuiet(PLAIN, b, "," + k, LIST);
    CommaEnds(k);
  }

  lemma ListIsAround()
    ensures Around(LIST)
  {
  }

  lemma CommaEnds(k: string)
    ensures CloseEnd(PLAIN, "," + k, LIST) == Some(1)
  {
    CloseEndCons(PLAIN, ',', k, LIST);
  }

  lemma SplitCut(a: string, m: Matcher, b: string, k: string)
    requires Gap(a) && WfMatcher(m) && Gap(b)
    ensures var s, n := a + PrintMatcher(m, b + ("," + k)), |a| + |MatcherText(m)| + |b| + 1;
            n <= |s| && Trim("" + s[..n - 1]) == MatcherText(m) && s[n..] == k
  {
    var t := MatcherText(m);
    var s, n := a + PrintMatcher(m, b + ("," + k)), |a| + |t| + |b| + 1;
    MatcherPrint(m, b + ("," + k));
    MatcherSnug(m);
    GapIsSpace(a);
    GapIsSpace(b);
    TrimStrips(a, t, b);
    hide *;
    assert s == (a + t + b) + ("," + k);
    Cut(a + t + b, "," + k);
    assert "" + s[..n - 1] == a + t + b;
    assert s[n..] == k;
  }

  lemma SplitOnce(a: string, m: Matcher, b: string, k: string)
    requires Gap(a) && WfMatcher(m) && Gap(b)
    ensures SplitFrom("", PLAIN, a + PrintMatcher(m, b + ("," + k))) == Cons(MatcherText(m), SplitFrom("", PLAIN, k))
  {
    hide CloseEnd, Run, PrintMatcher, Gap, WfMatcher, Trim;
    SplitFirst(a, m, b, k);
    SplitCut(a, m, b, k);
  }

  lemma SplitEnd(a: string, m: Matcher)
    requires Gap(a) && WfMatcher(m)
    ensures SplitFrom("", PLAIN, a + PrintMatcher(m, "")) == Ok([MatcherText(m)])
  {
    var t := MatcherText(m);
    QuietGap(a, LIST);
    CloseEndQuiet(PLAIN, a, t, LIST);
    CloseEndMatcher(PLAIN, m, "", LIST);
    MatcherSnug(m);
    GapIsSpace(a);
    TrimStrips(a, t, "");
    hide PrintMatcher, Gap, WfMatcher, Trim;
    assert "" + (a + t) == a + t + "";
  }

  lemma {:induction false} SplitOf(a: string, ms: Matchers)
    requires Gap(a) && WfMatchers(ms)
    ensures SplitFrom("", PLAIN, a + PrintMatchers(ms, "")) == Ok(Texts(Flatten(ms)))
    decreases ms
  {
    hide SplitFrom, PrintMatcher, Gap, WfMatcher;
    match ms {
      case Last(m, None) =>
        SplitEnd(a, m);
        assert [m][1..] == [];
        assert Texts([m]) == [MatcherText(m)];
      case Last(m, Some(b)) =>
        SplitOnce(a, m, b, "");
        SplitNothing();
        assert [m][1..] == [];
      case More(m, before, after, rest) =>
        SplitOnce(a, m, before, after + PrintMatchers(rest, ""));
        SplitOf(after, rest);
        assert ([m] + Flatten(rest))[1..] == Flatten(rest);
    }
  }

  lemma SplitNothing()
    ensures SplitFrom("", PLAIN, "") == Ok([])
  {
    assert "" + "" == "";
  }
}
