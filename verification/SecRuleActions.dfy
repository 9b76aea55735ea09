/** Which actions each link of a converted rule carries, said of the fields of the rule. */
module SecRuleActions {
  import opened Text
  import opened SecRules
  import opened SecRuleChains
  import opened SecRuleFidelity
  import opened SecRuleBags
  import opened SecRuleRoundTrip

  // ----- flow actions without `chain`

  lemma {:induction false} WithoutChainJoin(a: seq<Action>, b: seq<Action>)
    ensures WithoutChain(a + b) == WithoutChain(a) + WithoutChain(b)
  {
    hide HasChain;
    if b == [] {
      assert a + b == a;
    } else {
      var n := |b| - 1;
      assert (a + b)[..|a| + n] == a + b[..n];
      WithoutChainJoin(a, b[..n]);
    }
  }

  /** Taking `chain` out leaves every other action, as often and in the order it was there. */
  lemma {:induction false} OnlyChainGoes(a: seq<Action>, c: Action, b: seq<Action>)
    requires c.key == CHAIN && !HasChain(a) && !HasChain(b)
    ensures WithoutChain(a) == a && WithoutChain(a + [c] + b) == a + b
  {
    NoChainSame(a);
    NoChainSame(b);
    WithoutChainJoin(a + [c], b);
    WithoutChainJoin(a, [c]);
    assert [c][..0] == [];
    assert WithoutChain([c]) == [];
  }

  // ----- what is carried over

  ghost predicate Images(v: Vocabulary, kind: Kind, api: seq<Action>, crs: seq<Action>) {
    |crs| == |api| && forall k :: 0 <= k < |api| ==> ActionToCrs(v, kind, api[k]) == Ok(crs[k])
  }

  function Given(a: Option<ApiActions>): ApiActions { if a.None? then Actions(None, [], [], []) else a.value }

  /** The data, non-disruptive and flow actions, up to `chain`, are those of `a`, in order. */
  ghost predicate Carries(v: Vocabulary, a: Option<ApiActions>, c: CrsActions) {
    && Images(v, Data, Given(a).data, c.data)
    && Images(v, Flow, WithoutChain(Given(a).flow), WithoutChain(c.flow))
    && |c.quiet| == |Given(a).quiet|
    && forall k :: 0 <= k < |c.quiet| ==>
         c.quiet[k].One? && ActionToCrs(v, NonDisruptive, Given(a).quiet[k]) == Ok(c.quiet[k].action)
  }

  ghost predicate Disrupts(v: Vocabulary, a: Option<ApiActions>, c: CrsActions) {
    if Given(a).disruptive.None? then c.disruptive == None
    else c.disruptive.Some? && ActionToCrs(v, Disruptive, Given(a).disruptive.value) == Ok(c.disruptive.value)
  }

  lemma {:induction false} FlowImages(v: Vocabulary, flow: seq<Action>, out: seq<Action>)
    requires Images(v, Flow, flow, out)
    ensures Images(v, Flow, WithoutChain(flow), WithoutChain(out))
  {
    if flow != [] {
      var n := |flow| - 1;
      FlowImages(v, flow[..n], out[..n]);
      assert ActionToCrs(v, Flow, flow[n]) == Ok(out[n]);
      assert out[n].key == CHAIN <==> flow[n].key == CHAIN;
    }
  }

  lemma ConvertedCarries(v: Vocabulary, a: ApiActions)
    requires ActionsToCrs(v, a).Ok?
    ensures Carries(v, Some(a), ActionsToCrs(v, a).value) && Disrupts(v, Some(a), ActionsToCrs(v, a).value)
  {
    hide ActionToCrs, WithoutChain, Try;
    var c := ActionsToCrs(v, a).value;
    var flow := Try(a.flow, ToCrs(v, Flow)).value;
    assert forall k :: 0 <= k < |flow| ==> ToCrs(v, Flow)(a.flow[k]) == Ok(flow[k]);
    FlowImages(v, a.flow, flow);
    var data := Try(a.data, ToCrs(v, Data)).value;
    assert forall k :: 0 <= k < |data| ==> ToCrs(v, Data)(a.data[k]) == Ok(data[k]);
    var quiet := Try(a.quiet, ToCrs(v, NonDisruptive)).value;
    assert forall k :: 0 <= k < |quiet| ==> ToCrs(v, NonDisruptive)(a.quiet[k]) == Ok(quiet[k]);
  }

  lemma NothingCarried(v: Vocabulary)
    ensures Carries(v, None, NO_ACTIONS) && Disrupts(v, None, NO_ACTIONS)
  {
  }

  lemma ChainAside(v: Vocabulary, a: Option<ApiActions>, c: CrsActions)
    requires Carries(v, Some(EnsureChain(a)), c) && Disrupts(v, Some(EnsureChain(a)), c)
    ensures Carries(v, a, c) && Disrupts(v, a, c)
  {
    hide ActionToCrs, HasChain, WithoutChain;
    WithoutChainJoin(Given(a).flow, [Action(CHAIN, "")]);
    JustChain();
    assert WithoutChain(Given(a).flow) + [] == WithoutChain(Given(a).flow);
  }

  lemma JustChain()
    ensures WithoutChain([Action(CHAIN, "")]) == []
  {
    var s := [Action(CHAIN, "")];
    assert s[..0] == [];
  }

  lemma ConvertedLink(v: Vocabulary, meta: Option<Metadata>, cs: seq<Condition>, a: Option<ApiActions>)
    requires RuleToLink(v, meta, cs, a).Ok?
    ensures Carries(v, a, RuleToLink(v, meta, cs, a).value.actions) && Disrupts(v, a, RuleToLink(v, meta, cs, a).value.actions)
    ensures RuleToLink(v, meta, cs, a).value.meta == if meta.None? then NO_METADATA else meta.value
  {
    hide ActionsToCrs, Carries, Disrupts, Try, ConditionToCrs;
    if a.None? { NothingCarried(v); } else { ConvertedCarries(v, a.value); }
  }

  lemma ChildCarries(v: Vocabulary, a: Option<ApiActions>, link: Link, last: bool)
    requires Carries(v, a, link.actions)
    ensures Carries(v, a, AsChild(link, last).actions) && AsChild(link, last).actions.disruptive == None
  {
    hide ActionToCrs;
    NoChainSame(WithoutChain(link.actions.flow));
  }

  lemma StripCarries(v: Vocabulary, a: Option<ApiActions>, c: CrsActions)
    requires Carries(v, StripDisruptive(a), c)
    ensures Carries(v, a, c)
  {
    hide ActionToCrs, WithoutChain;
  }

  // ----- whose actions

  /** A match's own actions; without them the head and the last link take the rule's, and a link
      between takes none. */
  ghost predicate Inherits(v: Vocabulary, rule: Rule, ms: seq<Match>, i: nat, link: Link)
    requires i < |ms|
  {
    && (ms[i].actions.Some? ==> Carries(v, ms[i].actions, link.actions))
    && (ms[i].actions.None? && (i == 0 || i == |ms| - 1) ==> Carries(v, rule.actions, link.actions))
    && (ms[i].actions.None? && 0 < i < |ms| - 1 ==>
          link.actions.data == [] && link.actions.quiet == [] && WithoutChain(link.actions.flow) == [])
    && (i == 0 && ms[0].actions.Some? ==> Disrupts(v, ms[0].actions, link.actions))
    && (i == 0 && ms[0].actions.None? ==> Disrupts(v, rule.actions, link.actions))
    && (i > 0 ==> link.actions.disruptive == None)
    && link.meta == if i == 0 && rule.meta.Some? then rule.meta.value else NO_METADATA
  }

  lemma NothingMeans(v: Vocabulary, c: CrsActions)
    requires Carries(v, None, c)
    ensures c.data == [] && c.quiet == [] && WithoutChain(c.flow) == []
  {
  }

  lemma {:induction false} LinkInherits(v: Vocabulary, rule: Rule, ms: seq<Match>, i: nat)
    requires i < |ms| && LinkAt(v, rule, ms, i).Ok?
    ensures Inherits(v, rule, ms, i, LinkAt(v, rule, ms, i).value)
  {
    hide RuleToLink, EnsureChain, WithoutChain, Carries, Disrupts, AsChild;
    var a := LinkActions(rule, ms, i);
    var b := if i < |ms| - 1 then Some(EnsureChain(a)) else a;
    var meta := if i == 0 then rule.meta else None;
    var link := RuleToLink(v, meta, [ms[i].condition], b).value;
    ConvertedLink(v, meta, [ms[i].condition], b);
    if i < |ms| - 1 { ChainAside(v, a, link.actions); }
    if i > 0 {
      ChildMeta(link, i == |ms| - 1);
      ChildCarries(v, a, link, i == |ms| - 1);
      var c := AsChild(link, i == |ms| - 1).actions;
      if ms[i].actions.Some? { StripCarries(v, ms[i].actions, c); }
      else if i == |ms| - 1 { StripCarries(v, rule.actions, c); }
      else { NothingMeans(v, c); }
    }
  }

  lemma ChildMeta(link: Link, last: bool)
    ensures AsChild(link, last).meta == link.meta
  {
  }

  lemma ActionInherits(v: Vocabulary, rule: Rule, ms: seq<Match>)
    requires |ms| == 1 && ActionLink(v, rule.meta, ms[0].condition, ActionsOf(rule, ms[0])).Ok?
    ensures Inherits(v, rule, ms, 0, ActionLink(v, rule.meta, ms[0].condition, ActionsOf(rule, ms[0])).value)
  {
    hide ActionsToCrs, Carries, Disrupts, Try, TransformationToCrs;
    var a := ActionsOf(rule, ms[0]);
    if a.None? { NothingCarried(v); } else { ConvertedCarries(v, a.value); }
  }

  /** Every link of a converted rule has the condition and the actions it should have, and the head
      the rule's metadata. A rule without matches always matches and has the rule's own actions. */
  lemma {:induction false} LinksInherit(v: Vocabulary, rule: Rule)
    requires rule.matches != [] && LinksOf(v, rule).Ok?
    ensures var links, ms := LinksOf(v, rule).value, rule.matches;
            && |links| == |ms|
            && forall i :: 0 <= i < |ms| ==>
                 && Inherits(v, rule, ms, i, links[i]) && |links[i].conditions| == 1
                 && (|ms| > 1 || !ms[0].condition.always ==> ConditionToCrs(v, ms[i].condition) == Ok(links[i].conditions[0]))
  {
    hide LinksUpTo, LinkAt, ActionLink, Inherits, ConditionToCrs;
    var links, ms := LinksOf(v, rule).value, rule.matches;
    if IsAction(ms) {
      ActionInherits(v, rule, ms);
      ActionCondition(v, rule.meta, ms[0].condition, ActionsOf(rule, ms[0]));
    } else {
      forall i | 0 <= i < |ms|
        ensures Inherits(v, rule, ms, i, links[i]) && |links[i].conditions| == 1
        ensures ConditionToCrs(v, ms[i].condition) == Ok(links[i].conditions[0])
      {
        LinksUpToAt(v, rule, ms, |ms|, i);
        LinkInherits(v, rule, ms, i);
        LinkShape(v, rule, ms, i);
      }
    }
  }

  lemma ActionCondition(v: Vocabulary, meta: Option<Metadata>, c: Condition, a: Option<ApiActions>)
    requires ActionLink(v, meta, c, a).Ok?
    ensures var cs := ActionLink(v, meta, c, a).value.conditions;
            && |cs| == 1 && cs[0].always && cs[0].variables == [] && cs[0].collections == []
            && |cs[0].transformations| == |c.transformations|
  {
    hide ActionsToCrs, TransformationToCrs;
  }

  lemma EmptyRule(v: Vocabulary, rule: Rule)
    requires rule.matches == [] && LinksOf(v, rule).Ok?
    ensures var links := LinksOf(v, rule).value;
            && |links| == 1 && links[0].conditions == [Condition([], [], NO_OPERATOR, [], true, "")]
            && Carries(v, rule.actions, links[0].actions) && Disrupts(v, rule.actions, links[0].actions)
  {
    hide ActionLink, Carries, Disrupts;
    var ms := MatchesOf(rule);
    ActionInherits(v, rule, ms);
    ActionCondition(v, rule.meta, ms[0].condition, ActionsOf(rule, ms[0]));
    BareCondition(v, rule.meta, ActionsOf(rule, ms[0]));
  }

  lemma BareCondition(v: Vocabulary, meta: Option<Metadata>, a: Option<ApiActions>)
    requires ActionLink(v, meta, ALWAYS, a).Ok?
    ensures ActionLink(v, meta, ALWAYS, a).value.conditions == [Condition([], [], NO_OPERATOR, [], true, "")]
  {
    hide ActionsToCrs, TransformationToCrs;
  }

  // ----- legacy entries

  /** The link of an entry has the entry's own metadata, conditions and actions. */
  lemma EntryCarries(v: Vocabulary, bag: seq<Entry>, k: nat)
    requires k < |bag| && LinkOf(v, bag, k).Ok?
    ensures var link := LinkOf(v, bag, k).value;
            && Carries(v, bag[k].actions, link.actions) && Disrupts(v, bag[k].actions, link.actions)
            && link.meta == (if bag[k].meta.None? then NO_METADATA else bag[k].meta.value)
            && |link.conditions| == |bag[k].conditions|
            && forall i :: 0 <= i < |link.conditions| ==> ConditionToCrs(v, bag[k].conditions[i]) == Ok(link.conditions[i])
  {
    hide RuleToLink, Starts, ConditionToCrs, ActionToCrs, WithoutChain;
    var e := bag[k];
    ConvertedLink(v, e.meta, e.conditions, e.actions);
    RuleToLinkFlow(v, e.meta, e.conditions, e.actions);
    NoChainSame(WithoutChain(RuleToLink(v, e.meta, e.conditions, e.actions).value.actions.flow));
  }

  // ----- rules of several conditions on the way back

  /** A rule without continuation becomes one match per condition; in a chain each link becomes one match,
      of its first condition alone. */
  lemma {:induction false} MatchesOfChain(v: Vocabulary, links: seq<Link>, marker: string)
    requires links != [] && RuleOf(v, links, marker).Ok?
    ensures var rule := RuleOf(v, links, marker).value;
            && rule.marker == marker && rule.meta.Some? && rule.meta.value.id == links[0].meta.id
            && (|links| == 1 && |links[0].conditions| > 1 ==>
                  && |rule.matches| == |links[0].conditions|
                  && forall k :: 0 <= k < |rule.matches| ==>
                       && ConditionToApi(v, links[0].conditions[k]) == Ok(rule.matches[k].condition)
                       && rule.matches[k].actions == None)
            && (|links| > 1 || |links[0].conditions| <= 1 ==>
                  && |rule.matches| == |links|
                  && forall k :: 0 <= k < |links| ==>
                       && (links[k].conditions != [] ==> ConditionToApi(v, links[k].conditions[0]) == Ok(rule.matches[k].condition))
                       && (links[k].conditions == [] ==> rule.matches[k].condition == NO_CONDITION)
                       && (k == 0 <==> rule.matches[k].actions == None))
  {
    hide ConditionToApi, MatchesUpTo, ActionsWithoutChain;
    if |links| > 1 || |links[0].conditions| <= 1 {
      forall k | 0 <= k < |links| { MatchTaken(v, links, |links|, k); }
    }
  }

  lemma {:induction false} MatchTaken(v: Vocabulary, links: seq<Link>, n: nat, k: nat)
    requires k < n <= |links| && MatchesUpTo(v, links, n).Ok?
    ensures var m := MatchesUpTo(v, links, n).value[k];
            && (links[k].conditions != [] ==> ConditionToApi(v, links[k].conditions[0]) == Ok(m.condition))
            && (links[k].conditions == [] ==> m.condition == NO_CONDITION)
            && (k == 0 <==> m.actions == None)
  {
    hide ConditionToApi, ActionsWithoutChain;
    if k < n - 1 { MatchTaken(v, links, n - 1, k); }
  }

  // ----- names the other side does not know

  /** A condition keeps everything but names its new side does not know: an unknown operator becomes `eq`, an
      unset one and an unknown variable what that side has for them, an unknown collection its placeholder. */
  lemma ConditionOut(v: Vocabulary, c: Condition)
    requires ConditionToCrs(v, c).Ok?
    ensures var d := ConditionToCrs(v, c).value;
            && d.always == c.always && d.script == c.script
            && |d.variables| == |c.variables| && |d.collections| == |c.collections| && |d.transformations| == |c.transformations|
            && (forall k :: 0 <= k < |c.variables| ==>
                  d.variables[k] == Variable(if c.variables[k].name in v.variables then c.variables[k].name else v.noVariable,
                                             c.variables[k].excluded))
            && (forall k :: 0 <= k < |c.collections| ==>
                  d.collections[k] == c.collections[k] ||
                  (c.collections[k].name !in v.collections && d.collections[k] == c.collections[k].(name := "UNKNOWN_COLLECTION")))
            && (c.always ==> d.operator == Operator("unknownOperator", false, ""))
            && (!c.always ==>
                  && d.operator.negate == c.operator.negate && d.operator.value == c.operator.value
                  && (c.operator.name in v.operators && c.operator.name != "" ==> d.operator.name == c.operator.name)
                  && (c.operator.name == "" ==> d.operator.name == v.noOperator)
                  && (c.operator.name !in v.operators && c.operator.name != "" ==> d.operator.name == "eq"))
  {
    hide TransformationToCrs;
  }

  /** An action keeps its parameter and, if its kind has it, its key. */
  lemma ActionOut(v: Vocabulary, kind: Kind, a: Action)
    ensures var r := ActionToCrs(v, kind, a);
            var b := if a.key in Keys(kind) then a else Action("unknown", a.param);
            if v.accepts(b.key, b.param) then r == Ok(b) else r == Err(BadAction(b.key, b.param))
  {
    hide Keys;
  }

  // ----- the tables

  /** The actions of each kind. */
  lemma DisruptiveKeys(key: string)
    ensures key in Keys(Disruptive) <==> key in ["allow", "block", "deny", "drop", "pass", "pause", "proxy", "redirect"]
    ensures KeepsParam(Disruptive, key) <==> key == "redirect"
  {
  }

  lemma FlowKeys(key: string)
    ensures key in Keys(Flow) <==> key in ["chain", "skip", "skipAfter"]
    ensures KeepsParam(Flow, key) <==> key in ["skip", "skipAfter"]
  {
  }

  lemma DataKeys(key: string)
    ensures key in Keys(Data) <==> key in ["status", "xmlns"]
    ensures KeepsParam(Data, key)
  {
  }

  lemma QuietKeys(key: string)
    ensures key in Keys(NonDisruptive) <==>
            key in ["append", "auditlog", "capture", "ctl", "deprecatevar", "exec", "expirevar", "initcol", "log", "logdata",
                    "multiMatch", "noauditlog", "nolog", "sanitiseArg", "sanitiseMatched", "sanitiseMatchedBytes",
                    "sanitiseRequestHeader", "sanitiseResponseHeader", "setenv", "setrsc", "setsid", "setuid", "setvar"]
    ensures KeepsParam(NonDisruptive, key) <==>
            key in ["ctl", "exec", "expirevar", "initcol", "logdata", "setenv", "setvar", "setrsc", "setsid", "setuid"]
  {
  }

  /** A transformation keeps its name, but for the American spelling of the two paths. */
  lemma TransformationOut(v: Vocabulary, t: string)
    ensures var r := TransformationToCrs(v, t);
            && (Trim(t) == "normalizePath" || Trim(t) == "normalisePath" ==> r == Ok("normalisePath"))
            && (Trim(t) == "normalizePathWin" || Trim(t) == "normalisePathWin" ==> r == Ok("normalisePathWin"))
            && (Trim(t) !in ["normalizePath", "normalisePath", "normalizePathWin", "normalisePathWin"] ==>
                  if t in v.transformations && Trim(t) !in ["", "unknown", "unknownTransformation"] && t !in ["unknown", "unknownTransformation"]
                  then r == Ok(t) else r == Err(BadTransformation(t)))
  {
    hide Trim;
    TrimOfEmpty();
  }

  lemma TrimOfEmpty()
    ensures Trim("") == ""
  {
  }
}
