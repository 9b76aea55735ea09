/** A crslang chain turned into a resource and back is the same chain, up to the place of `chain`
    among the flow actions, the British spelling of path transformations and one set-variable
    action per assignment, exactly when each of its links is faithful; its metadata comes back when
    it is tidy, and what it fires on does not depend on that. */
module SecRuleReturn {
  import opened Text
  import opened SecRules
  import opened SecRuleChains
  import opened SecRuleRoundTrip
  import opened SecRuleFidelity

  // ----- the actions of a link

  function ActionsBack(v: Vocabulary, a: CrsActions, head: bool, more: bool): Result<CrsActions, Fault> {
    var api := ActionsToApi(a);
    ActionsToCrs(v, Actions(if head then api.disruptive else None, FlowOut(a.flow, more), api.quiet, api.data))
  }

  ghost predicate SameActions(a: CrsActions, b: CrsActions) {
    && b.disruptive == a.disruptive && b.data == a.data
    && AllTexts(b.quiet) == AllTexts(a.quiet) && WithoutChain(b.flow) == WithoutChain(a.flow)
  }

  ghost predicate ActionsSurvive(v: Vocabulary, a: CrsActions, head: bool) {
    && (a.disruptive.Some? ==> head && Survives(v, Disruptive, a.disruptive.value))
    && (forall x :: x in WithoutChain(a.flow) ==> Survives(v, Flow, x))
    && (forall q :: q in a.quiet ==> QuietSurvives(v, q))
    && (forall x :: x in a.data ==> Survives(v, Data, x))
  }

  function DisruptiveBack(v: Vocabulary, d: Option<Action>, head: bool): Result<Option<Action>, Fault> {
    if d.None? || !head then Ok(None) else AsSome(ActionToCrs(v, Disruptive, ActionToApi(Disruptive, d.value)))
  }

  lemma DisruptiveExact(v: Vocabulary, d: Option<Action>, head: bool)
    ensures DisruptiveBack(v, d, head) == Ok(d) <==> (d.Some? ==> head && Survives(v, Disruptive, d.value))
  {
    hide Survives, ActionToApi, ActionToCrs;
    if d.Some? { ActionBack(v, Disruptive, d.value); }
  }

  /** The four lists are converted apart, and all have to be converted. */
  lemma ActionsBackParts(v: Vocabulary, a: CrsActions, head: bool, more: bool)
    ensures var data := Try(Each(a.data, ToApi(Data)), ToCrs(v, Data));
            var disruptive := DisruptiveBack(v, a.disruptive, head);
            var flow := Try(FlowOut(a.flow, more), ToCrs(v, Flow));
            var quiet := Try(Flatten(Each(a.quiet, QuietToApi)), ToCrs(v, NonDisruptive));
            var r := ActionsBack(v, a, head, more);
            && (r.Ok? <==> data.Ok? && disruptive.Ok? && flow.Ok? && quiet.Ok?)
            && (r.Ok? ==> r.value == Actions(disruptive.value, flow.value, Each(quiet.value, AsOne), data.value))
  {
    hide Try, Each, Flatten, FlowOut, ActionToApi, ActionToCrs, ToApi, ToCrs;
  }

  lemma ActionsBackExact(v: Vocabulary, a: CrsActions, head: bool, more: bool)
    requires Sound(v)
    ensures var r := ActionsBack(v, a, head, more);
            && (r.Ok? ==> HasChain(r.value.flow) == more && (!head ==> r.value.disruptive == None))
            && ((r.Ok? && SameActions(a, r.value)) <==> ActionsSurvive(v, a, head))
  {
    hide Sound, Try, Each, Flatten, FlowOut, ToApi, ToCrs, HasChain, WithoutChain, ActionsBack, AllTexts, Survives,
         QuietSurvives;
    ActionsBackParts(v, a, head, more);
    DisruptiveExact(v, a.disruptive, head);
    FlowBack(v, a.flow, more);
    QuietBack(v, a.quiet);
    ListBack(v, Data, a.data);
    var quiet := Try(Flatten(Each(a.quiet, QuietToApi)), ToCrs(v, NonDisruptive));
    if quiet.Ok? { OnesTexts(quiet.value); }
  }

  // ----- a link

  function LinkBack(v: Vocabulary, link: Link, head: bool, more: bool): Result<Link, Fault>
    requires link.conditions != []
  {
    var c :- ConditionBack(v, link.conditions[0]);
    var a :- ActionsBack(v, link.actions, head, more);
    Ok(Link(if head then LinkMeta(v, link) else NO_METADATA, [c], a))
  }

  /** The links ask the same of a request: equal conditions up to spelling, and `chain` on both or neither. */
  ghost predicate SameTests(a: Link, b: Link) {
    && HasChain(b.actions.flow) == HasChain(a.actions.flow)
    && |b.conditions| == |a.conditions|
    && forall k :: 0 <= k < |a.conditions| ==> b.conditions[k] == Respelled(a.conditions[k])
  }

  ghost predicate SameLink(a: Link, b: Link) { SameTests(a, b) && SameActions(a.actions, b.actions) }

  ghost predicate TestsSurvive(v: Vocabulary, link: Link, more: bool) {
    |link.conditions| == 1 && ConditionSurvives(v, link.conditions[0]) && HasChain(link.actions.flow) == more
  }

  ghost predicate LinkSurvives(v: Vocabulary, link: Link, head: bool, more: bool) {
    TestsSurvive(v, link, more) && ActionsSurvive(v, link.actions, head)
  }

  lemma LinkBackExact(v: Vocabulary, link: Link, head: bool, more: bool)
    requires Sound(v) && |link.conditions| == 1
    ensures var r := LinkBack(v, link, head, more);
            && (r.Ok? ==> (SameTests(link, r.value) <==> TestsSurvive(v, link, more)))
            && ((r.Ok? && SameLink(link, r.value)) <==> LinkSurvives(v, link, head, more))
  {
    hide Sound, ConditionBack, ActionsBack, LinkMeta, SameActions, ActionsSurvive, ConditionSurvives, HasChain, Respelled;
    ConditionBackExact(v, link.conditions[0]);
    ActionsBackExact(v, link.actions, head, more);
  }

  // ----- the link the conversion there and back gives

  lemma {:induction false} MatchesUpToAt(v: Vocabulary, links: seq<Link>, n: nat, i: nat)
    requires i < n <= |links| && MatchesUpTo(v, links, n).Ok?
    ensures MatchOf(v, links[i], i == 0) == Ok(MatchesUpTo(v, links, n).value[i])
  {
    hide MatchOf;
    if i < n - 1 { MatchesUpToAt(v, links, n - 1, i); }
  }

  lemma MatchOfOne(v: Vocabulary, link: Link, head: bool)
    requires |link.conditions| == 1
    ensures var c := ConditionToApi(v, link.conditions[0]);
            && (c.Err? ==> MatchOf(v, link, head) == Err(c.error))
            && (c.Ok? ==> MatchOf(v, link, head) ==
                          Ok(Match(c.value, if head then None else Some(ActionsWithoutChain(link)))))
  {
    hide ConditionToApi, ActionsWithoutChain;
    TryOne(link.conditions[0], c => ConditionToApi(v, c));
    assert link.conditions == [link.conditions[0]];
  }

  lemma TryOne<A, B, E>(a: A, f: A -> Result<B, E>)
    ensures f(a).Err? ==> Try([a], f) == Err(f(a).error)
    ensures f(a).Ok? ==> Try([a], f) == Ok([f(a).value])
  {
    var s := [a];
    assert s[..0] == [] && s[0] == a;
    assert Try(s[..0], f) == Ok([]);
    if f(a).Ok? { TryFrom(s, f, [f(a).value]); }
  }

  lemma RuleToLinkOne(v: Vocabulary, meta: Option<Metadata>, c: Condition, a: ApiActions)
    ensures var d, b, r := ConditionToCrs(v, c), ActionsToCrs(v, a), RuleToLink(v, meta, [c], Some(a));
            && (d.Err? ==> r == Err(d.error))
            && (d.Ok? && b.Err? ==> r == Err(b.error))
            && (d.Ok? && b.Ok? ==> r == Ok(Link(if meta.None? then NO_METADATA else meta.value, [d.value], b.value)))
  {
    hide ConditionToCrs, ActionsToCrs;
    TryOne(c, x => ConditionToCrs(v, x));
  }

  /** The actions a link is given when the chain is built again. */
  lemma LinkActionsOut(link: Link, head: bool, more: bool)
    ensures var a := if head then Some(ActionsWithoutChain(link)) else StripDisruptive(Some(ActionsWithoutChain(link)));
            var api := ActionsToApi(link.actions);
            (if more then EnsureChain(a) else a.value) ==
            Actions(if head then api.disruptive else None, FlowOut(link.actions.flow, more), api.quiet, api.data)
  {
    hide ActionToApi, Each, Flatten, WithoutChain, HasChain;
    var flow := WithoutChain(Each(link.actions.flow, ToApi(Flow)));
    assert flow + [] == flow;
  }

  lemma ChildStays(v: Vocabulary, link: Link, more: bool)
    requires Sound(v) && link.conditions != [] && LinkBack(v, link, false, more).Ok?
    ensures AsChild(LinkBack(v, link, false, more).value, !more) == LinkBack(v, link, false, more).value
  {
    hide Sound, ConditionBack, ActionsBack, HasChain, WithoutChain, SameActions, ActionsSurvive;
    ActionsBackExact(v, link.actions, false, more);
    var a := ActionsBack(v, link.actions, false, more).value;
    if !more { NoChainSame(a.flow); }
  }

  /** The part of building a chain again that concerns one link. */
  lemma RuleToLinkBack(v: Vocabulary, link: Link, head: bool, more: bool, c: Condition, a: ApiActions)
    requires |link.conditions| == 1 && ConditionToApi(v, link.conditions[0]) == Ok(c)
    requires var api := ActionsToApi(link.actions);
             a == Actions(if head then api.disruptive else None, FlowOut(link.actions.flow, more), api.quiet, api.data)
    ensures RuleToLink(v, if head then Some(LinkMeta(v, link)) else None, [c], Some(a)) == LinkBack(v, link, head, more)
  {
    hide ConditionToApi, ConditionToCrs, ActionsToCrs, ActionsToApi, FlowOut, RuleToLink, LinkMeta;
    RuleToLinkOne(v, if head then Some(LinkMeta(v, link)) else None, c, a);
  }

  lemma {:induction false} LinkAtIs(v: Vocabulary, links: seq<Link>, rule: Rule, i: nat)
    requires Sound(v) && i < |links| && |links[i].conditions| == 1
    requires MatchesUpTo(v, links, |links|) == Ok(rule.matches)
    requires rule.meta == Some(LinkMeta(v, links[0])) && rule.actions == Some(ActionsWithoutChain(links[0]))
    ensures LinkAt(v, rule, rule.matches, i) == LinkBack(v, links[i], i == 0, i < |links| - 1)
  {
    hide Sound, ConditionToApi, ConditionToCrs, MatchesUpTo, MatchOf, ActionsWithoutChain, LinkMeta, RuleToLink,
         EnsureChain, LinkBack, ActionsToApi, FlowOut;
    var link, head, more := links[i], i == 0, i < |links| - 1;
    MatchesUpToAt(v, links, |links|, i);
    MatchOfOne(v, link, head);
    LinkActionsOut(link, head, more);
    var a := LinkActions(rule, rule.matches, i);
    RuleToLinkBack(v, link, head, more, rule.matches[i].condition, if more then EnsureChain(a) else a.value);
    if !head && LinkBack(v, link, head, more).Ok? { ChildStays(v, link, more); }
  }

  // ----- the chain

  function ThereAndBack(v: Vocabulary, links: seq<Link>, marker: string): Result<seq<Link>, Fault>
    requires links != []
  {
    var rule :- RuleOf(v, links, marker);
    LinksOf(v, rule)
  }

  /** A rule without continuation that always matches comes back without variables or script. */
  predicate Bare(c: Condition) { c.variables == [] && c.collections == [] && c.script == "" }

  predicate BareIfAlone(links: seq<Link>) {
    |links| == 1 && |links[0].conditions| == 1 && links[0].conditions[0].always ==> Bare(links[0].conditions[0])
  }

  /** One condition each, names both sides know, and `chain` exactly where the chain continues. */
  ghost predicate TestsFaithful(v: Vocabulary, links: seq<Link>) {
    (forall i :: 0 <= i < |links| ==> TestsSurvive(v, links[i], i < |links| - 1)) && BareIfAlone(links)
  }

  /** And parameters the resource keeps, with a disruptive action on the head only. */
  ghost predicate Faithful(v: Vocabulary, links: seq<Link>) {
    (forall i :: 0 <= i < |links| ==> LinkSurvives(v, links[i], i == 0, i < |links| - 1)) && BareIfAlone(links)
  }

  ghost predicate SameTestsAll(a: seq<Link>, b: seq<Link>) {
    |a| == |b| && forall i :: 0 <= i < |a| ==> SameTests(a[i], b[i])
  }

  ghost predicate SameChain(a: seq<Link>, b: seq<Link>) {
    |a| == |b| && forall i :: 0 <= i < |a| ==> SameLink(a[i], b[i])
  }

  lemma {:induction false} LinksUpToOk(v: Vocabulary, rule: Rule, ms: seq<Match>, n: nat)
    requires n <= |ms| && forall i :: 0 <= i < n ==> LinkAt(v, rule, ms, i).Ok?
    ensures LinksUpTo(v, rule, ms, n).Ok?
  {
    hide LinkAt;
    if n > 0 { LinksUpToOk(v, rule, ms, n - 1); }
  }

  /** Every link of the new chain has one condition. */
  lemma {:induction false} OneConditionEach(v: Vocabulary, rule: Rule, i: nat)
    requires LinksOf(v, rule).Ok? && i < |LinksOf(v, rule).value|
    ensures |LinksOf(v, rule).value[i].conditions| == 1
  {
    hide LinkAt, LinksUpTo;
    var ms := MatchesOf(rule);
    if !IsAction(ms) {
      LinksUpToAt(v, rule, ms, |ms|, i);
      LinkShape(v, rule, ms, i);
    }
  }

  lemma {:induction false} MatchesOk(v: Vocabulary, links: seq<Link>, n: nat)
    requires n <= |links| && forall i :: 0 <= i < n ==> MatchOf(v, links[i], i == 0).Ok?
    ensures MatchesUpTo(v, links, n).Ok?
  {
    hide MatchOf;
    if n > 0 { MatchesOk(v, links, n - 1); }
  }

  lemma {:induction false} LinkBackReads(v: Vocabulary, link: Link, head: bool, more: bool)
    requires |link.conditions| == 1 && LinkBack(v, link, head, more).Ok?
    ensures MatchOf(v, link, head).Ok?
  {
    hide ConditionToApi, ConditionToCrs, ActionsBack, LinkMeta, MatchOf;
    MatchOfOne(v, link, head);
  }

  /** A chain that is not a single always-matching rule comes back link by link. */
  lemma {:induction false} BackByLinks(v: Vocabulary, links: seq<Link>, marker: string)
    requires Sound(v) && links != [] && forall i :: 0 <= i < |links| ==> |links[i].conditions| == 1
    requires |links| > 1 || !links[0].conditions[0].always
    ensures var r := ThereAndBack(v, links, marker);
            && (r.Ok? <==> forall i :: 0 <= i < |links| ==> LinkBack(v, links[i], i == 0, i < |links| - 1).Ok?)
            && (r.Ok? ==>
                  |r.value| == |links| &&
                  forall i :: 0 <= i < |links| ==>
                    LinkBack(v, links[i], i == 0, i < |links| - 1) == Ok(r.value[i]))
  {
    hide Sound, LinkBack, LinkAt, LinksUpTo, MatchesUpTo, LinkMeta, ActionsWithoutChain;
    if MatchesUpTo(v, links, |links|).Ok? {
      var rule := RuleOf(v, links, marker).value;
      NotAction(v, links, rule);
      forall i | 0 <= i < |links|
        ensures LinkAt(v, rule, rule.matches, i) == LinkBack(v, links[i], i == 0, i < |links| - 1)
      {
        LinkAtIs(v, links, rule, i);
      }
      if LinksUpTo(v, rule, rule.matches, |links|).Ok? {
        forall i | 0 <= i < |links| { LinksUpToAt(v, rule, rule.matches, |links|, i); }
      } else if forall i :: 0 <= i < |links| ==> LinkBack(v, links[i], i == 0, i < |links| - 1).Ok? {
        LinksUpToOk(v, rule, rule.matches, |links|);
      }
    } else if forall i :: 0 <= i < |links| ==> LinkBack(v, links[i], i == 0, i < |links| - 1).Ok? {
      forall i | 0 <= i < |links| ensures MatchOf(v, links[i], i == 0).Ok? {
        LinkBackReads(v, links[i], i == 0, i < |links| - 1);
      }
      MatchesOk(v, links, |links|);
    }
  }

  lemma {:induction false} NotAction(v: Vocabulary, links: seq<Link>, rule: Rule)
    requires links != [] && |links[0].conditions| == 1 && MatchesUpTo(v, links, |links|) == Ok(rule.matches)
    requires |links| > 1 || !links[0].conditions[0].always
    ensures MatchesOf(rule) == rule.matches && !IsAction(rule.matches)
  {
    hide ConditionToApi, MatchOf, MatchesUpTo;
    MatchesUpToAt(v, links, |links|, 0);
    MatchOfOne(v, links[0], true);
    AlwaysStays(v, links[0].conditions[0]);
  }

  lemma {:induction false} AlwaysStays(v: Vocabulary, c: Condition)
    ensures ConditionToApi(v, c).Ok? ==> ConditionToApi(v, c).value.always == c.always
  {
    hide Try, Each;
  }

  // ----- a single rule that always matches

  /** Building an always-matching rule keeps the transformations and nothing else of its condition. */
  lemma {:induction false} BareToCrs(v: Vocabulary, c: Condition)
    requires c.always
    ensures var ts := Try(c.transformations, t => TransformationToCrs(v, t));
            && (ts.Err? ==> ConditionToCrs(v, c) == Err(ts.error))
            && (ts.Ok? ==> ConditionToCrs(v, c).Ok?)
            && (ts.Ok? && Bare(c) ==> ConditionToCrs(v, c) == Ok(Condition([], [], NO_OPERATOR, ts.value, true, "")))
  {
    hide Try, TransformationToCrs;
  }

  lemma {:induction false} BareStays(v: Vocabulary, c: Condition)
    requires ConditionToApi(v, c).Ok?
    ensures Bare(ConditionToApi(v, c).value) == Bare(c)
  {
    hide Try, TransformationToApi, OperatorToApi;
  }

  lemma {:induction false} ActionLinkIs(v: Vocabulary, rule: Rule, m: Match, link: Link)
    requires |link.conditions| == 1 && link.conditions[0].always && Bare(link.conditions[0])
    requires ConditionToApi(v, link.conditions[0]) == Ok(m.condition) && m.actions == None
    requires rule.meta == Some(LinkMeta(v, link)) && rule.actions == Some(ActionsWithoutChain(link))
    ensures ActionLink(v, rule.meta, m.condition, ActionsOf(rule, m)) == LinkBack(v, link, true, false)
  {
    hide Try, TransformationToCrs, ConditionToApi, ConditionToCrs, ActionsToCrs, ActionsWithoutChain, LinkMeta,
         FlowOut, ActionsToApi, Bare;
    AlwaysStays(v, link.conditions[0]);
    BareStays(v, link.conditions[0]);
    BareToCrs(v, m.condition);
    LinkActionsOut(link, true, false);
  }

  lemma {:induction false} SingleRule(v: Vocabulary, link: Link, marker: string)
    requires |link.conditions| == 1 && link.conditions[0].always
    ensures var r, b := ThereAndBack(v, [link], marker), LinkBack(v, link, true, false);
            && (Bare(link.conditions[0]) && b.Err? ==> r.Err?)
            && (Bare(link.conditions[0]) && b.Ok? ==> r == Ok([b.value]))
            && (r.Ok? ==> |r.value| == 1 && |r.value[0].conditions| == 1 && Bare(r.value[0].conditions[0]))
  {
    hide Try, TransformationToCrs, ConditionToApi, ActionsToCrs, ActionsWithoutChain, LinkMeta, LinkBack, MatchOf;
    MatchOfOne(v, link, true);
    OneMatch(v, link);
    var c := ConditionToApi(v, link.conditions[0]);
    if c.Err? {
      LinkBackFails(v, link);
    } else {
      AlwaysStays(v, link.conditions[0]);
      var rule := RuleOf(v, [link], marker).value;
      if Bare(link.conditions[0]) { ActionLinkIs(v, rule, rule.matches[0], link); }
    }
  }

  lemma {:induction false} LinkBackFails(v: Vocabulary, link: Link)
    requires |link.conditions| == 1 && ConditionToApi(v, link.conditions[0]).Err?
    ensures LinkBack(v, link, true, false).Err?
  {
    hide ConditionToApi, ConditionToCrs, ActionsBack, LinkMeta;
  }

  lemma {:induction false} OneMatch(v: Vocabulary, link: Link)
    ensures var m, ms := MatchOf(v, link, true), MatchesUpTo(v, [link], 1);
            && (m.Err? ==> ms == Err(m.error)) && (m.Ok? ==> ms == Ok([m.value]))
  {
    hide MatchOf;
    var links := [link];
    MatchesStart(v, links);
    assert links[0] == link;
    var m := MatchOf(v, link, true);
    if m.Ok? { assert [] + [m.value] == [m.value]; }
  }

  // ----- the rules of a chain

  lemma {:induction false} ManyConditions(v: Vocabulary, links: seq<Link>, marker: string, i: nat)
    requires i < |links| && |links[i].conditions| != 1
    requires ThereAndBack(v, links, marker).Ok?
    ensures !SameTestsAll(links, ThereAndBack(v, links, marker).value)
  {
    hide LinksOf, RuleOf, HasChain;
    var r := ThereAndBack(v, links, marker).value;
    var rule := RuleOf(v, links, marker).value;
    if |r| == |links| { OneConditionEach(v, rule, i); }
  }

  lemma {:induction false} NotBare(v: Vocabulary, link: Link, marker: string)
    requires |link.conditions| == 1 && link.conditions[0].always && !Bare(link.conditions[0])
    ensures var r := ThereAndBack(v, [link], marker); r.Ok? ==> !SameTestsAll([link], r.value)
  {
    hide ThereAndBack, HasChain;
    SingleRule(v, link, marker);
    var r := ThereAndBack(v, [link], marker);
    var links := [link];
    assert links[0] == link;
  }

  lemma {:induction false} SameTestsOf(a: seq<Link>, b: seq<Link>)
    requires SameChain(a, b)
    ensures SameTestsAll(a, b)
  {
    hide SameTests, SameActions;
  }

  lemma {:induction false} SurvivorHasOne(v: Vocabulary, link: Link, head: bool, more: bool)
    ensures TestsSurvive(v, link, more) ==> |link.conditions| == 1
    ensures LinkSurvives(v, link, head, more) ==> |link.conditions| == 1
  {
  }

  /** A chain comes back with the same conditions, actions and `chain` flags exactly when it is
      faithful; whenever it comes back, its conditions and flags are the same exactly when they are. */
  lemma {:induction false} RulesComeBack(v: Vocabulary, links: seq<Link>, marker: string)
    requires Sound(v) && links != []
    ensures var r := ThereAndBack(v, links, marker);
            && ((r.Ok? && SameChain(links, r.value)) <==> Faithful(v, links))
            && (r.Ok? ==> (SameTestsAll(links, r.value) <==> TestsFaithful(v, links)))
  {
    hide Sound, LinkBack, ThereAndBack, SameTests, SameActions, LinkSurvives, TestsSurvive, Bare;
    var r := ThereAndBack(v, links, marker);
    if r.Ok? && SameChain(links, r.value) { SameTestsOf(links, r.value); }
    if i :| 0 <= i < |links| && |links[i].conditions| != 1 {
      SurvivorHasOne(v, links[i], i == 0, i < |links| - 1);
      if r.Ok? { ManyConditions(v, links, marker, i); }
    } else {
      forall i | 0 <= i < |links| { LinkBackExact(v, links[i], i == 0, i < |links| - 1); }
      if |links| > 1 || !links[0].conditions[0].always {
        BackByLinks(v, links, marker);
      } else {
        assert links == [links[0]];
        SingleRule(v, links[0], marker);
        if !Bare(links[0].conditions[0]) { NotBare(v, links[0], marker); }
      }
    }
  }

  // ----- with metadata

  /** Whatever comes back has the head's metadata, its comment cleaned up, on the head and none elsewhere. */
  lemma {:induction false} MetaComesBack(v: Vocabulary, links: seq<Link>, marker: string)
    requires links != [] && ThereAndBack(v, links, marker).Ok?
    ensures var r := ThereAndBack(v, links, marker).value;
            forall i :: 0 <= i < |r| ==> r[i].meta == if i == 0 then LinkMeta(v, links[0]) else NO_METADATA
  {
    hide LinksUpTo, LinkAt, RuleMatches, ActionsWithoutChain, LinkMeta;
    var rule := RuleOf(v, links, marker).value;
    var r := ThereAndBack(v, links, marker).value;
    var ms := MatchesOf(rule);
    if !IsAction(ms) {
      forall i | 0 <= i < |r| ensures r[i].meta == if i == 0 then LinkMeta(v, links[0]) else NO_METADATA {
        LinksUpToAt(v, rule, ms, |ms|, i);
        LinkShape(v, rule, ms, i);
        if i == 0 { HeadMeta(v, rule, ms); }
      }
    }
  }

  lemma HeadMeta(v: Vocabulary, rule: Rule, ms: seq<Match>)
    requires ms != [] && LinkAt(v, rule, ms, 0).Ok? && rule.meta.Some?
    ensures LinkAt(v, rule, ms, 0).value.meta == rule.meta.value
  {
    hide Try, ActionsToCrs, EnsureChain, LinkActions;
  }

  ghost predicate SameMeta(a: seq<Link>, b: seq<Link>) {
    |a| == |b| && forall i :: 0 <= i < |a| ==> b[i].meta == a[i].meta
  }

  /** Metadata on the head only, with a comment that the clean-up leaves alone. */
  predicate MetaTidy(v: Vocabulary, links: seq<Link>) {
    forall i :: 0 <= i < |links| ==>
      if i == 0 then links[i].meta.comment == "" || v.tidy(links[i].meta.comment) == links[i].meta.comment
      else links[i].meta == NO_METADATA
  }

  /** A chain comes back the same, metadata included, exactly when it is faithful and its metadata tidy. */
  lemma {:induction false} ThereAndBackExact(v: Vocabulary, links: seq<Link>, marker: string)
    requires Sound(v) && links != []
    ensures var r := ThereAndBack(v, links, marker);
            (r.Ok? && SameChain(links, r.value) && SameMeta(links, r.value)) <==> Faithful(v, links) && MetaTidy(v, links)
  {
    hide Sound, ThereAndBack, SameLink, Faithful;
    RulesComeBack(v, links, marker);
    if ThereAndBack(v, links, marker).Ok? { MetaComesBack(v, links, marker); }
  }

  // ----- firing

  ghost predicate Matched(link: Link, holds: Condition -> bool) { forall c :: c in link.conditions ==> holds(c) }

  /** The rule at `i` fires: its conditions hold and, if it carries `chain`, there is a next rule
      and that fires too. */
  ghost predicate FiresFrom(links: seq<Link>, i: nat, holds: Condition -> bool)
    decreases |links| - i
  {
    i < |links| && Matched(links[i], holds) && (HasChain(links[i].actions.flow) ==> FiresFrom(links, i + 1, holds))
  }

  ghost predicate Fires(links: seq<Link>, holds: Condition -> bool) { FiresFrom(links, 0, holds) }

  lemma {:induction false} FiresAlike(a: seq<Link>, b: seq<Link>, i: nat, holds: Condition -> bool)
    requires SameTestsAll(a, b) && forall c :: holds(c) == holds(Respelled(c))
    ensures FiresFrom(a, i, holds) == FiresFrom(b, i, holds)
    decreases |a| - i
  {
    hide HasChain, Respelled, Matched;
    if i < |a| {
      assert SameTests(a[i], b[i]);
      SameConditions(a[i], b[i], holds);
      FiresAlike(a, b, i + 1, holds);
    }
  }

  lemma {:induction false} SameConditions(a: Link, b: Link, holds: Condition -> bool)
    requires SameTests(a, b) && forall c :: holds(c) == holds(Respelled(c))
    ensures Matched(a, holds) == Matched(b, holds)
  {
    hide HasChain, Respelled;
    assert forall k :: 0 <= k < |a.conditions| ==> holds(b.conditions[k]) == holds(a.conditions[k]);
    if Matched(b, holds) {
      forall k | 0 <= k < |a.conditions| ensures holds(a.conditions[k]) { assert b.conditions[k] in b.conditions; }
    }
  }

  /** A chain that comes back fires on the same requests if its conditions and `chain` flags are
      faithful, whatever happens to its metadata and its other actions, for every engine that takes
      the two spellings for the same transformation. */
  lemma {:induction false} FiresTheSame(v: Vocabulary, links: seq<Link>, marker: string, holds: Condition -> bool)
    requires Sound(v) && links != [] && ThereAndBack(v, links, marker).Ok? && TestsFaithful(v, links)
    requires forall c :: holds(c) == holds(Respelled(c))
    ensures Fires(ThereAndBack(v, links, marker).value, holds) == Fires(links, holds)
  {
    hide Sound, ThereAndBack, TestsFaithful, Faithful, SameTestsAll, SameChain, FiresFrom, Respelled;
    RulesComeBack(v, links, marker);
    FiresAlike(links, ThereAndBack(v, links, marker).value, 0, holds);
  }

  /** In particular a faithful chain comes back and fires the same. */
  lemma {:induction false} FaithfulFires(v: Vocabulary, links: seq<Link>, marker: string, holds: Condition -> bool)
    requires Sound(v) && links != [] && Faithful(v, links) && forall c :: holds(c) == holds(Respelled(c))
    ensures ThereAndBack(v, links, marker).Ok?
    ensures Fires(ThereAndBack(v, links, marker).value, holds) == Fires(links, holds)
  {
    hide Sound, ThereAndBack, TestsSurvive, ActionsSurvive, SameTestsAll, SameChain, Fires, Respelled;
    RulesComeBack(v, links, marker);
    FiresTheSame(v, links, marker, holds);
  }
}
