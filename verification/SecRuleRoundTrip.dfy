/** From crslang chains back to the resource, and what a chain keeps on the way there and back. */
module SecRuleRoundTrip {
  import opened Text
  import opened SecRules
  import opened SecRuleChains

  // ----- a chain as a resource

  const NO_CONDITION := Condition([], [], Operator("", false, ""), [], false, "")

  function ApiConditions(v: Vocabulary, link: Link): (r: Result<seq<Condition>, Fault>)
    ensures r.Ok? ==> |r.value| == |link.conditions|
  {
    Try(link.conditions, c => ConditionToApi(v, c))
  }

  function ActionsWithoutChain(link: Link): ApiActions {
    var a := ActionsToApi(link.actions);
    a.(flow := WithoutChain(a.flow))
  }

  /** The match of one link: its first condition, and its actions unless it is the head. */
  function MatchOf(v: Vocabulary, link: Link, head: bool): Result<Match, Fault> {
    var cs :- ApiConditions(v, link);
    Ok(Match(if cs == [] then NO_CONDITION else cs[0], if head then None else Some(ActionsWithoutChain(link))))
  }

  function MatchesUpTo(v: Vocabulary, links: seq<Link>, n: nat): (r: Result<seq<Match>, Fault>)
    requires n <= |links|
    ensures r.Ok? ==> |r.value| == n
  {
    if n == 0 then Ok([])
    else
      var front :- MatchesUpTo(v, links, n - 1);
      var last :- MatchOf(v, links[n - 1], n == 1);
      Ok(front + [last])
  }

  function Alone(c: Condition): Match { Match(c, None) }

  /** A single rule with several conditions gives one match per condition. */
  function RuleMatches(v: Vocabulary, links: seq<Link>): Result<seq<Match>, Fault>
    requires links != []
  {
    if |links| == 1 && |links[0].conditions| > 1 then
      var cs :- ApiConditions(v, links[0]);
      Ok(Each(cs, Alone))
    else MatchesUpTo(v, links, |links|)
  }

  function RuleOf(v: Vocabulary, links: seq<Link>, marker: string): Result<Rule, Fault>
    requires links != []
  {
    var ms :- RuleMatches(v, links);
    Ok(Rule(Some(LinkMeta(v, links[0])), ms, Some(ActionsWithoutChain(links[0])), marker))
  }

  /** An integer cut to 32 bits. */
  function Int32(n: int): (r: int)
    ensures -0x8000_0000 <= r < 0x8000_0000 && (r - n) % 0x1_0000_0000 == 0
  {
    (n + 0x8000_0000) % 0x1_0000_0000 - 0x8000_0000
  }

  method ConvertToSingleForm(v: Vocabulary, head: Node, marker: string,
                             ghost nodes: seq<Node>, ghost links: seq<Link>)
    returns (r: Result<Rule, Fault>, order: int)
    requires nodes != [] && head == nodes[0] && Linked(nodes, links)
    ensures r == RuleOf(v, links, marker)
    ensures order == if r.Ok? && links[0].meta.id > 0 then Int32(links[0].meta.id) else 0
  {
    hide ApiConditions, ActionsWithoutChain, LinkMeta, MatchOf, MatchesUpTo;
    MatchesStart(v, links);
    MetaId(v, links[0]);
    order := 0;
    var ms: seq<Match> := [];
    var cur: Node? := head;
    ghost var n := 0;
    while cur != null
      invariant n <= |nodes| && cur == if n < |nodes| then nodes[n] else null
      invariant MatchesUpTo(v, links, n) == Ok(ms)
      invariant n > 0 ==> !(|links| == 1 && |links[0].conditions| > 1)
      invariant order == 0
      decreases |nodes| - n
    {
      var link := cur.AsLink();
      assert cur.AsLink() == links[n] && cur.chained == if n + 1 < |nodes| then nodes[n + 1] else null;
      MatchesNext(v, links, n);
      var cs := ApiConditions(v, link);
      if cs.Err? { return Err(cs.error), 0; }
      if cur.chained == null && |cs.value| > 1 && ms == [] {
        ms := Each(cs.value, Alone);
        break;
      }
      var m := Match(if cs.value == [] then NO_CONDITION else cs.value[0],
                     if cur == head then None else Some(ActionsWithoutChain(link)));
      ms := ms + [m];
      cur := cur.chained;
      n := n + 1;
    }
    var meta := LinkMeta(v, head.AsLink());
    if meta.id > 0 { order := Int32(meta.id); }
    r := Ok(Rule(Some(meta), ms, Some(ActionsWithoutChain(head.AsLink())), marker));
  }

  lemma MetaId(v: Vocabulary, link: Link)
    ensures LinkMeta(v, link).id == link.meta.id
  {
  }

  lemma MatchesStart(v: Vocabulary, links: seq<Link>)
    ensures MatchesUpTo(v, links, 0) == Ok([])
  {
  }

  lemma MatchesNext(v: Vocabulary, links: seq<Link>, n: nat)
    requires n < |links| && MatchesUpTo(v, links, n).Ok?
    ensures var cs := ApiConditions(v, links[n]);
            && (cs.Err? ==> MatchesUpTo(v, links, |links|) == Err(cs.error))
            && (cs.Ok? ==>
                  MatchesUpTo(v, links, n + 1) ==
                  Ok(MatchesUpTo(v, links, n).value +
                     [Match(if cs.value == [] then NO_CONDITION else cs.value[0],
                            if n == 0 then None else Some(ActionsWithoutChain(links[n])))]))
  {
    hide ApiConditions, ActionsWithoutChain;
    if ApiConditions(v, links[n]).Err? { MatchesFail(v, links, n + 1, |links|); }
  }

  lemma {:induction false} MatchesFail(v: Vocabulary, links: seq<Link>, i: nat, n: nat)
    requires i <= n <= |links| && MatchesUpTo(v, links, i).Err?
    ensures MatchesUpTo(v, links, n) == MatchesUpTo(v, links, i)
  {
    hide MatchOf;
    if i < n { MatchesFail(v, links, i, n - 1); }
  }
}
