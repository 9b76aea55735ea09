/** Building rule chains: the matches of one rule, and the runs of a legacy bag, become linked
    nodes. The chains are built by pointing the last node at the next one. */
module SecRuleChains {
  import opened Text
  import opened SecRules
  import opened SecRuleSlices

  // ----- the chain of one rule, as values

  const ALWAYS := Condition([], [], Operator("", false, ""), [], true, "")

  /** No match at all stands for one that always matches. */
  function MatchesOf(rule: Rule): (r: seq<Match>)
    ensures r != []
  {
    if rule.matches == [] then [Match(ALWAYS, None)] else rule.matches
  }

  predicate IsAction(ms: seq<Match>) { |ms| == 1 && ms[0].condition.always }

  /** A rule that always matches becomes a single link. */
  function ActionLink(v: Vocabulary, meta: Option<Metadata>, c: Condition, a: Option<ApiActions>): Result<Link, Fault> {
    var ts :- Try(c.transformations, t => TransformationToCrs(v, t));
    var actions :- if a.None? then Ok(NO_ACTIONS) else ActionsToCrs(v, a.value);
    Ok(Link(if meta.None? then NO_METADATA else meta.value, [Condition([], [], NO_OPERATOR, ts, true, "")], actions))
  }

  function ActionsOf(rule: Rule, m: Match): Option<ApiActions> { if m.actions.None? then rule.actions else m.actions }

  /** The head takes the rule's actions when it has none of its own, the last link takes them
      without the disruptive one; no link but the head keeps a disruptive action. */
  function LinkActions(rule: Rule, ms: seq<Match>, i: nat): Option<ApiActions>
    requires i < |ms|
  {
    var own := ms[i].actions;
    if i == 0 then (if own.None? then rule.actions else own)
    else if own.Some? then StripDisruptive(own)
    else if i == |ms| - 1 then StripDisruptive(rule.actions)
    else None
  }

  function AsChild(link: Link, last: bool): Link {
    var a := link.actions;
    link.(actions := Actions(None, if last then WithoutChain(a.flow) else a.flow, a.quiet, a.data))
  }

  function LinkAt(v: Vocabulary, rule: Rule, ms: seq<Match>, i: nat): Result<Link, Fault>
    requires i < |ms|
  {
    var a := LinkActions(rule, ms, i);
    var link :- RuleToLink(v, if i == 0 then rule.meta else None, [ms[i].condition],
                           if i < |ms| - 1 then Some(EnsureChain(a)) else a);
    Ok(if i == 0 then link else AsChild(link, i == |ms| - 1))
  }

  /** The first `n` links, or the failure of the first that fails. */
  function LinksUpTo(v: Vocabulary, rule: Rule, ms: seq<Match>, n: nat): (r: Result<seq<Link>, Fault>)
    requires n <= |ms|
    ensures r.Ok? ==> |r.value| == n
  {
    if n == 0 then Ok([])
    else
      var front :- LinksUpTo(v, rule, ms, n - 1);
      var last :- LinkAt(v, rule, ms, n - 1);
      Ok(front + [last])
  }

  lemma {:induction false} LinksUpToAt(v: Vocabulary, rule: Rule, ms: seq<Match>, n: nat, i: nat)
    requires i < n <= |ms| && LinksUpTo(v, rule, ms, n).Ok?
    ensures LinkAt(v, rule, ms, i) == Ok(LinksUpTo(v, rule, ms, n).value[i])
  {
    hide LinkAt;
    if i < n - 1 { LinksUpToAt(v, rule, ms, n - 1, i); }
  }

  function LinksOf(v: Vocabulary, rule: Rule): Result<seq<Link>, Fault> {
    var ms := MatchesOf(rule);
    if IsAction(ms) then
      var link :- ActionLink(v, rule.meta, ms[0].condition, ActionsOf(rule, ms[0]));
      Ok([link])
    else LinksUpTo(v, rule, ms, |ms|)
  }

  // ----- the shape of a chain

  /** The disruptive action and the metadata stand on the head only, and exactly the links that
      have a continuation carry `chain`. */
  ghost predicate IsChain(links: seq<Link>) {
    forall i :: 0 <= i < |links| ==>
      && HasChain(links[i].actions.flow) == (i < |links| - 1)
      && (i > 0 ==> links[i].actions.disruptive == None && links[i].meta == NO_METADATA)
  }

  lemma ChainStays(v: Vocabulary, flow: seq<Action>)
    ensures var r := Try(flow, ToCrs(v, Flow)); r.Ok? ==> HasChain(r.value) == HasChain(flow)
  {
    hide Try;
    var r := Try(flow, ToCrs(v, Flow));
    if r.Ok? {
      assert forall i :: 0 <= i < |flow| ==> ActionToCrs(v, Flow, flow[i]) == Ok(r.value[i]);
      assert forall i :: 0 <= i < |flow| ==> (r.value[i].key == CHAIN <==> flow[i].key == CHAIN);
    }
  }

  lemma RuleToLinkFlow(v: Vocabulary, meta: Option<Metadata>, cs: seq<Condition>, a: Option<ApiActions>)
    ensures var r := RuleToLink(v, meta, cs, a);
            r.Ok? ==>
              && HasChain(r.value.actions.flow) == (a.Some? && HasChain(a.value.flow))
              && (meta.None? ==> r.value.meta == NO_METADATA)
              && |r.value.conditions| == |cs|
              && (forall i :: 0 <= i < |cs| ==> ConditionToCrs(v, cs[i]) == Ok(r.value.conditions[i]))
  {
    hide ConditionToCrs, HasChain, ActionToCrs;
    if a.Some? { ChainStays(v, a.value.flow); } else { EmptyHasNoChain(); }
  }

  lemma EmptyHasNoChain()
    ensures !HasChain([])
  {
  }

  lemma LinkShape(v: Vocabulary, rule: Rule, ms: seq<Match>, i: nat)
    requires i < |ms| && LinkAt(v, rule, ms, i).Ok?
    ensures var r := LinkAt(v, rule, ms, i).value;
            && (i < |ms| - 1 ==> HasChain(r.actions.flow))
            && (0 < i == |ms| - 1 ==> !HasChain(r.actions.flow))
            && (i > 0 ==> r.actions.disruptive == None && r.meta == NO_METADATA)
            && |r.conditions| == 1 && ConditionToCrs(v, ms[i].condition) == Ok(r.conditions[0])
  {
    hide ConditionToCrs, RuleToLink, EnsureChain, WithoutChain, HasChain;
    var a := LinkActions(rule, ms, i);
    RuleToLinkFlow(v, if i == 0 then rule.meta else None, [ms[i].condition],
                   if i < |ms| - 1 then Some(EnsureChain(a)) else a);
  }

  /** Several matches always give a well-shaped chain with one link and one condition per match. */
  lemma MatchesGiveChain(v: Vocabulary, rule: Rule)
    requires |rule.matches| >= 2 && LinksOf(v, rule).Ok?
    ensures var links := LinksOf(v, rule).value;
            && |links| == |rule.matches| && IsChain(links)
            && forall i :: 0 <= i < |links| ==>
                 |links[i].conditions| == 1 &&
                 ConditionToCrs(v, rule.matches[i].condition) == Ok(links[i].conditions[0])
  {
    hide ConditionToCrs, LinkAt, LinksUpTo, HasChain;
    var ms := rule.matches;
    assert LinksOf(v, rule) == LinksUpTo(v, rule, ms, |ms|);
    var links := LinksOf(v, rule).value;
    forall i | 0 <= i < |ms|
      ensures LinkAt(v, rule, ms, i) == Ok(links[i])
    {
      LinksUpToAt(v, rule, ms, |ms|, i);
    }
    forall i | 0 <= i < |ms| { LinkShape(v, rule, ms, i); }
  }

  // ----- nodes

  /** One rule of crslang, which may point at its continuation. */
  class Node {
    var meta: Metadata
    var conditions: seq<Condition>
    var actions: CrsActions
    var chained: Node?

    constructor (link: Link)
      ensures AsLink() == link && chained == null
    {
      meta, conditions, actions, chained := link.meta, link.conditions, link.actions, null;
    }

    function AsLink(): Link
      reads this
    {
      Link(meta, conditions, actions)
    }
  }

  /** The nodes hold the links and each points at the next. */
  ghost predicate Linked(nodes: seq<Node>, links: seq<Link>)
    reads nodes
  {
    && |nodes| == |links|
    && (forall i, j :: 0 <= i < j < |nodes| ==> nodes[i] != nodes[j])
    && forall i :: 0 <= i < |nodes| ==>
         && nodes[i].AsLink() == links[i]
         && nodes[i].chained == if i + 1 < |nodes| then nodes[i + 1] else null
  }

  datatype Directive = SecRule(node: Node) | SecMarker(name: string)

  lemma OneLinked(node: Node)
    requires node.chained == null
    ensures Linked([node], [node.AsLink()])
  {
  }

  /** The last node of a chain gets a continuation. */
  method Attach(ghost nodes: seq<Node>, ghost links: seq<Link>, prev: Node, next: Node)
    requires Linked(nodes, links) && nodes != [] && prev == nodes[|nodes| - 1]
    requires next !in nodes && next.chained == null
    modifies prev`chained
    ensures Linked(nodes + [next], links + [next.AsLink()])
  {
    prev.chained := next;
  }

  method RemoveChain(node: Node)
    modifies node`actions
    ensures node.actions == old(node.actions).(flow := WithoutChain(old(node.actions.flow)))
  {
    var flow := node.actions.flow;
    if flow == [] { return; }
    var rest := [];
    for i := 0 to |flow|
      invariant rest == WithoutChain(flow[..i])
    {
      assert flow[..i + 1][..i] == flow[..i];
      if flow[i].key != CHAIN { rest := rest + [flow[i]]; }
    }
    assert flow[..|flow|] == flow;
    node.actions := node.actions.(flow := rest);
  }

  function OptionValues(a: Option<SpecActions>): Option<ApiActions>
    requires a.Some? ==> AllFit(a.value)
    reads if a.None? then {} else Arrays(a.value)
  {
    if a.None? then None else Some(Values(a.value))
  }

  lemma RecordReads(rule: SpecRule, i: nat)
    requires Fitting(rule) && i <= |rule.matches|
    ensures RecordAt(rule, i).Some? ==> AllFit(RecordAt(rule, i).value)
    ensures RecordValues(rule, i) == OptionValues(RecordAt(rule, i))
    ensures RecordValues(rule, i) == if i < |rule.matches| then RuleValues(rule).matches[i].actions else RuleValues(rule).actions
  {
  }

  lemma RuleReads(rule: SpecRule)
    requires Fitting(rule)
    ensures var r := RuleValues(rule);
            && r.meta == rule.meta && r.marker == rule.marker
            && forall i :: 0 <= i < |rule.matches| ==> r.matches[i].condition == rule.matches[i].condition
  {
  }

  /** The actions a link starts from, read off the resource. */
  method TakeActions(rule: SpecRule, i: nat) returns (a: Option<SpecActions>)
    requires i < |rule.matches| && Fitting(rule) && Separate(rule)
    ensures a.Some? ==> AllFit(a.value) && Spares(a.value, a.value)
    ensures a.Some? && a.value.flow.len == 0 ==> a.value.flow.buf in Room(rule)
    ensures OptionValues(a) == LinkActions(old(RuleValues(rule)), old(RuleValues(rule)).matches, i)
    ensures RuleValues(rule) == old(RuleValues(rule))
  {
    hide Spares, RuleValues, RecordValues;
    var own := rule.matches[i].actions;
    ghost var j := if own.Some? then i else |rule.matches|;
    RecordReads(rule, i);
    RecordReads(rule, |rule.matches|);
    a := if own.Some? then own else if i == 0 || i == |rule.matches| - 1 then rule.actions else None;
    assert a == None || a == RecordAt(rule, j);
    if i > 0 && a.Some? {
      var stripped := StripDisruptiveActions(a.value);
      a := Some(stripped);
    }
    RuleStays(rule);
  }

  /** Adding `chain` writes to no element that the rule shows. */
  method EnsureChainOn(rule: SpecRule, a: Option<SpecActions>) returns (r: ApiActions)
    requires Fitting(rule) && Separate(rule) && (a.Some? ==> AllFit(a.value) && Spares(a.value, a.value))
    requires a.Some? && a.value.flow.len == 0 ==> a.value.flow.buf in Room(rule)
    modifies Room(rule)
    ensures r == EnsureChain(old(OptionValues(a))) && RuleValues(rule) == old(RuleValues(rule))
  {
    hide RuleValues, RecordValues;
    if a.None? {
      var none := new Action[0];
      var empty := Slice(none, 0);
      r := EnsureChainAction(SpecActions(None, empty, empty, empty));
    } else {
      r := EnsureChainAction(a.value);
    }
    RuleStays(rule);
  }

  /** The actions of the link at `i`, with `chain` on all but the last. */
  method DeriveActions(rule: SpecRule, i: nat) returns (a: Option<ApiActions>)
    requires i < |rule.matches| && Fitting(rule) && Separate(rule)
    modifies Room(rule)
    ensures RuleValues(rule) == old(RuleValues(rule))
    ensures var values := old(RuleValues(rule));
            var start := LinkActions(values, values.matches, i);
            a == if i < |rule.matches| - 1 then Some(EnsureChain(start)) else start
  {
    hide EnsureChain, LinkActions, RecordValues, RuleValues, Separate, Room;
    var taken := TakeActions(rule, i);
    a := OptionValues(taken);
    if i < |rule.matches| - 1 {
      var chained := EnsureChainOn(rule, taken);
      a := Some(chained);
    }
  }

  method NewNode(link: Link, isParent: bool, isLast: bool) returns (node: Node)
    ensures fresh(node) && node.chained == null && node.AsLink() == if isParent then link else AsChild(link, isLast)
  {
    hide WithoutChain;
    node := new Node(link);
    if !isParent {
      if isLast { RemoveChain(node); }
      if node.actions.disruptive.Some? { node.actions := node.actions.(disruptive := None); }
    }
  }

  /** A node for the link at `i`, before it is joined to the chain. The rule reads as before. */
  method NodeAt(v: Vocabulary, rule: SpecRule, i: nat) returns (r: Result<Node, Fault>)
    requires i < |rule.matches| && Fitting(rule) && Separate(rule)
    modifies Room(rule)
    ensures RuleValues(rule) == old(RuleValues(rule))
    ensures var values := old(RuleValues(rule));
            var want := LinkAt(v, values, values.matches, i);
            && (want.Err? ==> r == Err(want.error))
            && (want.Ok? ==> r.Ok? && fresh(r.value) && r.value.chained == null && r.value.AsLink() == want.value)
  {
    hide EnsureChain, RuleToLink, LinkActions, RecordValues, RuleValues, Separate, Room, AsChild;
    RuleReads(rule);
    var actions := DeriveActions(rule, i);
    var link := RuleToLink(v, if i == 0 then rule.meta else None, [rule.matches[i].condition], actions);
    if link.Err? { return Err(link.error); }
    label derived:
    var node := NewNode(link.value, i == 0, i == |rule.matches| - 1);
    RuleStays@derived(rule);
    return Ok(node);
  }

  method BuildChain(v: Vocabulary, rule: SpecRule)
    returns (r: Result<Node, Fault>, ghost nodes: seq<Node>)
    requires rule.matches != [] && Fitting(rule) && Separate(rule)
    modifies Room(rule)
    ensures RuleValues(rule) == old(RuleValues(rule))
    ensures var values := old(RuleValues(rule));
            var links := LinksUpTo(v, values, values.matches, |values.matches|);
            && (links.Err? ==> r == Err(links.error))
            && (links.Ok? ==> r.Ok? && fresh(nodes) && Linked(nodes, links.value) && r.value == nodes[0])
  {
    hide LinkAt, LinksUpTo, RuleValues, Separate, Room, Linked;
    ghost var values := RuleValues(rule);
    ghost var ms := values.matches;
    StartsEmpty(v, values, ms);
    var first := NodeAt(v, rule, 0);
    FailsEarly(v, values, ms, 0);
    if first.Err? { return first, []; }
    var head := first.value;
    var prev := head;
    nodes := [head];
    OneLinked(head);
    assert [] + [head.AsLink()] == [head.AsLink()];
    for i := 1 to |rule.matches|
      invariant RuleValues(rule) == values && |nodes| == i
      invariant LinksUpTo(v, values, ms, i).Ok?
      invariant fresh(nodes) && Linked(nodes, LinksUpTo(v, values, ms, i).value)
      invariant head == nodes[0] && prev == nodes[i - 1]
    {
      var next := NodeAt(v, rule, i);
      FailsEarly(v, values, ms, i);
      if next.Err? { return next, []; }
      label derived:
      Attach(nodes, LinksUpTo(v, values, ms, i).value, prev, next.value);
      RuleStays@derived(rule);
      prev := next.value;
      nodes := nodes + [next.value];
    }
    r := Ok(head);
  }

  lemma StartsEmpty(v: Vocabulary, rule: Rule, ms: seq<Match>)
    ensures LinksUpTo(v, rule, ms, 0) == Ok([])
  {
  }

  lemma {:induction false} FailsEarly(v: Vocabulary, rule: Rule, ms: seq<Match>, i: nat)
    requires i < |ms| && LinksUpTo(v, rule, ms, i).Ok?
    ensures LinkAt(v, rule, ms, i).Err? ==> LinksUpTo(v, rule, ms, |ms|) == Err(LinkAt(v, rule, ms, i).error)
    ensures LinkAt(v, rule, ms, i).Ok? ==>
              LinksUpTo(v, rule, ms, i + 1) == Ok(LinksUpTo(v, rule, ms, i).value + [LinkAt(v, rule, ms, i).value])
  {
    hide LinkAt;
    if LinkAt(v, rule, ms, i).Err? { FailsFrom(v, rule, ms, i + 1, |ms|); }
  }

  lemma {:induction false} FailsFrom(v: Vocabulary, rule: Rule, ms: seq<Match>, i: nat, n: nat)
    requires i <= n <= |ms| && LinksUpTo(v, rule, ms, i).Err?
    ensures LinksUpTo(v, rule, ms, n) == LinksUpTo(v, rule, ms, i)
  {
    hide LinkAt;
    if i < n { FailsFrom(v, rule, ms, i, n - 1); }
  }

  /** One rule as directives: its chain, then its marker if it has one. Nothing that the rule shows
      changes. */
  method ConvertSingleRule(v: Vocabulary, rule: SpecRule)
    returns (r: Result<seq<Directive>, Fault>, ghost nodes: seq<Node>)
    requires Fitting(rule) && Separate(rule)
    modifies Room(rule)
    ensures RuleValues(rule) == old(RuleValues(rule))
    ensures var links := LinksOf(v, old(RuleValues(rule)));
            && (links.Err? ==> r == Err(links.error))
            && (links.Ok? ==>
                  && r.Ok? && fresh(nodes) && nodes != [] && Linked(nodes, links.value)
                  && r.value == [SecRule(nodes[0])] + if rule.marker != "" then [SecMarker(rule.marker)] else [])
  {
    hide LinksUpTo, ActionLink, Separate, RuleValues, RecordValues;
    var ms := if rule.matches == [] then [SpecMatch(ALWAYS, None)] else rule.matches;
    RuleReads(rule);
    var head;
    if |ms| == 1 && ms[0].condition.always {
      var actions := if ms[0].actions.None? then rule.actions else ms[0].actions;
      RecordReads(rule, 0);
      RecordReads(rule, |rule.matches|);
      var link := ActionLink(v, rule.meta, ms[0].condition, if actions.None? then None else Some(Values(actions.value)));
      if link.Err? { return Err(link.error), []; }
      head := new Node(link.value);
      nodes := [head];
      RuleStays(rule);
    } else {
      var chain;
      chain, nodes := BuildChain(v, rule);
      if chain.Err? { return Err(chain.error), []; }
      head := chain.value;
    }
    var out := [SecRule(head)];
    if rule.marker != "" { out := out + [SecMarker(rule.marker)]; }
    r := Ok(out);
  }
}
