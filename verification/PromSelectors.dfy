/** The scanner's treatment of one selector, against narrowing its tree. */
module PromSelectors {
  import opened Text
  import opened PromLexer
  import opened PromScope
  import opened PromTree
  import opened PromScopeTree
  import opened PromTokens
  import opened PromMatchers
  import opened PromIdentity

  // ----- what stands between the braces

  lemma {:induction false} MatchersPrint(ms: Matchers, k: string)
    ensures PrintMatchers(ms, k) == PrintMatchers(ms, "") + k
  {
    hide PrintMatcher;
    match ms {
      case Last(m, None) =>
        MatcherPrint(m, k);
      case Last(m, Some(x)) =>
        MatcherPrint(m, x + ("," + k));
        MatcherPrint(m, x + ("," + ""));
        assert x + ("," + k) == (x + ("," + "")) + k;
        Assoc(MatcherText(m), x + ("," + ""), k);
      case More(m, before, after, rest) =>
        var t, t0 := PrintMatchers(rest, k), PrintMatchers(rest, "");
        MatchersPrint(rest, k);
        MatcherPrint(m, before + ("," + (after + t)));
        MatcherPrint(m, before + ("," + (after + t0)));
        assert before + ("," + (after + t)) == (before + ("," + (after + t0))) + k;
        Assoc(MatcherText(m), before + ("," + (after + t0)), k);
    }
  }

  lemma {:induction false} MatchersSnug(ms: Matchers)
    requires WfMatchers(ms)
    ensures Snug(PrintMatchers(ms, "")) && PrintMatchers(ms, "") != ""
  {
    hide PrintMatcher, WfMatcher;
    MatcherSnug(ms.m);
    var text := MatcherText(ms.m);
    match ms {
      case Last(m, None) =>
      case Last(m, Some(x)) =>
        MatcherPrint(m, x + ("," + ""));
      case More(m, before, after, rest) =>
        MatchersSnug(rest);
        MatcherPrint(m, before + ("," + (after + PrintMatchers(rest, ""))));
    }
  }

  /** The matchers without the blanks at either end. */
  function Core(b: Braces): string {
    match b.ms
    case None => ""
    case Some(ms) => PrintMatchers(ms, "")
  }

  function CoreOf(s: Sel): string { if s.braces.Some? then Core(s.braces.value) else "" }

  lemma BodyPrint(b: Braces, k: string)
    ensures PrintBody(b, k) == b.lead + Core(b) + b.trail + k
  {
    hide PrintMatchers;
    match b.ms {
      case None =>
        assert b.lead + "" == b.lead;
        Assoc(b.lead, b.trail, k);
      case Some(ms) =>
        MatchersPrint(ms, b.trail + k);
        Assoc(b.lead, Core(b), b.trail + k);
        Assoc(b.lead + Core(b), b.trail, k);
    }
  }

  lemma CoreSnug(b: Braces)
    requires WfBraces(b)
    ensures Snug(Core(b)) && Trim(Core(b)) == Core(b)
    ensures Trim(b.lead + Core(b) + b.trail) == Core(b)
  {
    hide PrintMatchers, WfMatchers, Trim;
    if b.ms.Some? { MatchersSnug(b.ms.value); }
    GapIsSpace(b.lead);
    GapIsSpace(b.trail);
    TrimSnug(Core(b));
    TrimStrips(b.lead, Core(b), b.trail);
  }

  lemma CloseEndBraces(l: Lex, b: Braces, k: string, g: Group)
    requires Resting(l) && WfBraces(b) && Around(g) && g != LIST
    ensures CloseEnd(l, PrintBody(b, k), g) == Later(|b.lead| + |Core(b)| + |b.trail|, CloseEnd(l, k, g))
  {
    hide CloseEnd, Run, Gap, PrintMatchers, WfMatchers, Around, Quiet;
    QuietGap(b.lead, g);
    QuietGap(b.trail, g);
    CloseEndQuiet(l, b.trail, k, g);
    match b.ms {
      case None =>
        CloseEndQuiet(l, b.lead, b.trail + k, g);
      case Some(ms) =>
        CloseEndMatchers(l, ms, b.trail + k, g);
        CloseEndQuiet(l, b.lead, PrintMatchers(ms, b.trail + k), g);
    }
  }

  function BracesLen(b: Braces): nat { |b.lead| + |Core(b)| + |b.trail| + 2 }

  lemma BraceEnd(b: Braces, k: string)
    requires WfBraces(b)
    ensures GroupEnd(PrintBraces(b, k), BRACE) == Some(BracesLen(b))
  {
    hide CloseEnd, PrintBody, Core, WfBraces;
    CloseEndBraces(PLAIN, b, "}" + k, BRACE);
    CloseEndCons(PLAIN, '}', k, BRACE);
    assert PrintBraces(b, k)[1..] == PrintBody(b, "}" + k);
  }

  lemma BracesCut(b: Braces, k: string)
    requires WfBraces(b)
    ensures var s, n := PrintBraces(b, k), BracesLen(b);
            n <= |s| && Inner(s, n) == Core(b) && s[n..] == k
  {
    hide Core, WfBraces, Trim, PrintBody;
    var s, n, body := PrintBraces(b, k), BracesLen(b), b.lead + Core(b) + b.trail;
    BodyPrint(b, "}" + k);
    assert s == "{" + (body + ("}" + k));
    assert s[1..n - 1] == body;
    assert s[n..] == k;
    CoreSnug(b);
  }

  // ----- the identity check and what is kept

  lemma SelMatchers(s: Sel)
    requires WfSel(s)
    ensures AllWf(MatchersOf(s))
    ensures SplitMatchers(CoreOf(s)) == Ok(Texts(MatchersOf(s)))
  {
    hide SplitFrom, PrintMatchers, WfMatchers, WfMatcher, Trim;
    if s.braces.Some? {
      CoreSnug(s.braces.value);
      if s.braces.value.ms.Some? {
        var ms := s.braces.value.ms.value;
        FlattenWf(ms);
        SplitOf("", ms);
        assert "" + PrintMatchers(ms, "") == PrintMatchers(ms, "");
      }
    } else {
      TrimSnug("");
    }
    SplitNothing();
  }

  lemma RejectOf(s: Sel, ids: seq<Identity>)
    requires WfSel(s)
    ensures RejectForeign(CoreOf(s), ids) ==
            match Wanted(MatchersOf(s), Identity("", ""))
            case Err(e) => Some(e)
            case Ok(want) => if Acceptable(want, ids) then None else Some(EscapesScope)
  {
    hide SplitMatchers, WfSel, CoreOf, MatchersOf, IdentityOf, Wanted, Admits;
    SelMatchers(s);
    IdentityOfTexts(MatchersOf(s), Identity("", ""));
  }

  lemma StripOf(s: Sel)
    requires WfSel(s)
    ensures StripIdentity(CoreOf(s)) == Join(Texts(Others(MatchersOf(s))), ",")
  {
    hide SplitMatchers, WfSel, CoreOf, MatchersOf, Kept, Join;
    SelMatchers(s);
    KeptTexts(MatchersOf(s));
  }

  // ----- the emitted selector

  lemma {:induction false} ListingPrint(m: Matcher, rest: seq<Matcher>, k: string)
    ensures PrintMatchers(Listing(m, rest), k) == Join(Texts([m] + rest), ",") + k
    decreases |rest|
  {
    hide PrintMatcher;
    assert ([m] + rest)[1..] == rest;
    if |rest| == 0 {
      MatcherPrint(m, k);
      assert Texts([m] + rest) == [MatcherText(m)];
    } else {
      var j := Join(Texts(rest), ",");
      assert [rest[0]] + rest[1..] == rest;
      ListingPrint(rest[0], rest[1..], k);
      assert Texts([m] + rest)[1..] == Texts(rest);
      MatcherPrint(m, "" + ("," + ("" + (j + k))));
      assert "" + ("," + ("" + (j + k))) == ("," + j) + k;
      Assoc(MatcherText(m), "," + j, k);
      Assoc(MatcherText(m), ",", j);
    }
  }

  lemma {:induction false} JoinSnug(ms: seq<Matcher>)
    requires AllWf(ms)
    ensures Snug(Join(Texts(ms), ",")) && (|ms| > 0 ==> Join(Texts(ms), ",") != "")
  {
    hide WfMatcher, MatcherText;
    if |ms| > 0 {
      MatcherSnug(ms[0]);
      assert Texts(ms)[1..] == Texts(ms[1..]);
      JoinSnug(ms[1..]);
    }
  }

  lemma {:induction false} OthersWf(ms: seq<Matcher>)
    requires AllWf(ms)
    ensures AllWf(Others(ms))
  {
    if |ms| > 0 { OthersWf(ms[1..]); }
  }

  lemma ScopeTexts(id: Identity)
    ensures ScopeText(id) == MatcherText(Equals("waf_namespace", id.namespace)) + "," + MatcherText(Equals("waf_name", id.name))
  {
    EqualsText("waf_namespace", id.namespace);
    EqualsText("waf_name", id.name);
    hide Escape, MatcherText, Equals;
    var a, b := Escape(id.namespace), Escape(id.name);
    assert "waf_namespace=\"" + a + "\",waf_name=\"" + b + "\"" ==
           ("waf_namespace=\"" + a + "\"") + "," + ("waf_name=\"" + b + "\"");
  }

  lemma EqualsText(name: string, value: string)
    ensures MatcherText(Equals(name, value)) == name + "=\"" + Escape(value) + "\""
  {
    hide Escape;
  }

  /** The text between the braces of a narrowed selector. */
  function NarrowBody(s: Sel, id: Identity): string {
    Join(Texts([Equals("waf_namespace", id.namespace), Equals("waf_name", id.name)] + Others(MatchersOf(s))), ",")
  }

  lemma JoinTexts(m: Matcher, ms: seq<Matcher>)
    ensures Join(Texts([m] + ms), ",") ==
            if |ms| == 0 then MatcherText(m) else MatcherText(m) + "," + Join(Texts(ms), ",")
  {
    hide MatcherText;
    assert ([m] + ms)[1..] == ms;
    assert ([MatcherText(m)] + Texts(ms))[1..] == Texts(ms);
  }

  lemma OthersSnug(s: Sel)
    requires WfSel(s)
    ensures var os := Others(MatchersOf(s)); var rest := Join(Texts(os), ",");
            Trim(rest) == rest && (rest == "" <==> |os| == 0)
  {
    hide *;
    var os := Others(MatchersOf(s));
    SelMatchers(s);
    OthersWf(MatchersOf(s));
    JoinSnug(os);
    TrimSnug(Join(Texts(os), ","));
    JoinNone(os);
  }

  lemma JoinNone(ms: seq<Matcher>)
    ensures |ms| == 0 ==> Join(Texts(ms), ",") == ""
  {
  }

  lemma NarrowBodyJoin(s: Sel, id: Identity)
    ensures var a, b := MatcherText(Equals("waf_namespace", id.namespace)), MatcherText(Equals("waf_name", id.name));
            var os := Others(MatchersOf(s));
            NarrowBody(s, id) == if |os| == 0 then a + "," + b else a + "," + (b + "," + Join(Texts(os), ","))
  {
    hide MatcherText, Others, MatchersOf, Equals, Texts, Join;
    var a, b, os := Equals("waf_namespace", id.namespace), Equals("waf_name", id.name), Others(MatchersOf(s));
    assert [a, b] + os == [a] + ([b] + os);
    JoinTexts(a, [b] + os);
    JoinTexts(b, os);
  }

  lemma NarrowBodyIs(s: Sel, id: Identity)
    requires WfSel(s)
    ensures var rest := Join(Texts(Others(MatchersOf(s))), ",");
            Trim(rest) == rest &&
            NarrowBody(s, id) == if rest == "" then ScopeText(id) else ScopeText(id) + "," + rest
  {
    hide *;
    var a, b := MatcherText(Equals("waf_namespace", id.namespace)), MatcherText(Equals("waf_name", id.name));
    var rest := Join(Texts(Others(MatchersOf(s))), ",");
    OthersSnug(s);
    NarrowBodyJoin(s, id);
    ScopeTexts(id);
    Assoc(a + ",", b + ",", rest);
    assert a + "," + (b + ",") == a + "," + b + ",";
  }

  lemma Wrapped(metric: string, body: string, r: string)
    ensures metric + ("" + ("{" + ("" + (body + ("" + ("}" + r)))))) == metric + "{" + body + "}" + r
  {
    assert "" + ("}" + r) == "}" + r;
    assert "" + (body + ("}" + r)) == body + ("}" + r);
    assert "" + ("{" + (body + ("}" + r))) == "{" + (body + ("}" + r));
    Assoc(metric, "{", body + ("}" + r));
    Assoc(metric + "{", body, "}" + r);
    Assoc(metric + "{" + body, "}", r);
  }

  lemma NarrowPrint(s: Sel, id: Identity, k: string)
    ensures PrintSel(Narrow(s, id), k) == s.metric + "{" + NarrowBody(s, id) + "}" + PrintRange(s.g2, s.range, k)
  {
    var a, b, os := Equals("waf_namespace", id.namespace), Equals("waf_name", id.name), Others(MatchersOf(s));
    var r := PrintRange(s.g2, s.range, k);
    hide PrintMatchers, Listing, PrintRange, Others, MatchersOf, Equals, Join, Texts;
    ListingPrint(a, [b] + os, "" + ("}" + r));
    assert [a] + ([b] + os) == [a, b] + os;
    Wrapped(s.metric, NarrowBody(s, id), r);
  }

  lemma InjectIs(metric: string, inner: string, id: Identity)
    requires id.namespace != "" && id.name != "" && Trim(inner) == inner
    ensures Inject(metric, inner, id) ==
            Ok(metric + "{" + (if inner == "" then ScopeText(id) else ScopeText(id) + "," + inner) + "}")
  {
    hide Trim, ScopeText;
    var m, t := metric + "{", ScopeText(id);
    if inner != "" {
      Assoc(m, t, ",");
      Assoc(m, t + ",", inner);
    }
  }

  lemma InjectOf(s: Sel, id: Identity)
    requires WfSel(s) && id.namespace != "" && id.name != ""
    ensures Inject(s.metric, StripIdentity(CoreOf(s)), id) == Ok(s.metric + "{" + NarrowBody(s, id) + "}")
  {
    hide *;
    StripOf(s);
    NarrowBodyIs(s, id);
    InjectIs(s.metric, Join(Texts(Others(MatchersOf(s))), ","), id);
  }

  function SelTexts(ss: seq<Sel>): (r: seq<string>)
    ensures |r| == |ss|
  {
    if |ss| == 0 then [] else [PrintSel(ss[0], "")] + SelTexts(ss[1..])
  }

  lemma {:induction false} InjectAllOf(s: Sel, ids: seq<Identity>)
    requires WfSel(s)
    ensures InjectAll(s.metric, StripIdentity(CoreOf(s)), PrintRange(s.g2, s.range, ""), ids) ==
            match NarrowAll(s, ids)
            case Err(e) => Err(e)
            case Ok(ss) => Ok(SelTexts(ss))
  {
    hide Inject, StripIdentity, CoreOf, PrintRange, Narrow, WfSel, PrintSel, NarrowBody;
    if |ids| > 0 {
      InjectAllOf(s, ids[1..]);
      if ids[0].namespace == "" || ids[0].name == "" {
        InjectFails(s, ids[0]);
      } else {
        InjectOf(s, ids[0]);
        NarrowPrint(s, ids[0], "");
        if NarrowAll(s, ids[1..]).Ok? {
          assert ([Narrow(s, ids[0])] + NarrowAll(s, ids[1..]).value)[1..] == NarrowAll(s, ids[1..]).value;
        }
      }
    }
  }

  lemma InjectFails(s: Sel, id: Identity)
    requires id.namespace == "" || id.name == ""
    ensures Inject(s.metric, StripIdentity(CoreOf(s)), id) == Err(InvalidIdentity)
  {
  }
}
