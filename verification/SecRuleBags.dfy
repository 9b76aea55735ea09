/** Legacy bags: a flat list of rules in which an entry with `chain` continues in the next one. */
module SecRuleBags {
  import opened Text
  import opened SecRules
  import opened SecRuleChains

  datatype Entry = Entry(
    meta: Option<Metadata>, conditions: seq<Condition>, actions: Option<ApiActions>, marker: string)

  predicate Continues(e: Entry) { e.actions.Some? && HasChain(e.actions.value.flow) }

  function EntryLink(v: Vocabulary, e: Entry): Result<Link, Fault> {
    RuleToLink(v, e.meta, e.conditions, e.actions)
  }

  function DropChain(link: Link): Link {
    link.(actions := link.actions.(flow := WithoutChain(link.actions.flow)))
  }

  /** Where the run that starts at `i` ends. */
  function RunEnd(bag: seq<Entry>, i: nat): (j: nat)
    requires i < |bag|
    ensures i < j <= |bag|
    ensures forall k :: i <= k < j - 1 ==> Continues(bag[k])
    ensures j < |bag| ==> !Continues(bag[j - 1])
    decreases |bag| - i
  {
    if i + 1 < |bag| && Continues(bag[i]) then RunEnd(bag, i + 1) else i + 1
  }

  /** The links of the entries from `i` to `j`: every entry but the first loses `chain`. */
  function RunLinks(v: Vocabulary, bag: seq<Entry>, i: nat, j: nat): (r: Result<seq<Link>, Fault>)
    requires i < j <= |bag|
    ensures r.Ok? ==> |r.value| == j - i
    decreases j - i
  {
    if j == i + 1 then
      var head :- EntryLink(v, bag[i]);
      Ok([head])
    else
      var front :- RunLinks(v, bag, i, j - 1);
      var last :- EntryLink(v, bag[j - 1]);
      Ok(front + [DropChain(last)])
  }

  /** The marker of the last entry of the run, or else that of the first. */
  function RunMarker(bag: seq<Entry>, i: nat, j: nat): string
    requires i < j <= |bag|
  {
    if bag[j - 1].marker != "" then bag[j - 1].marker else bag[i].marker
  }

  datatype Emitted = Chain(links: seq<Link>) | Marker(name: string)

  function Markers(name: string): seq<Emitted> { if name == "" then [] else [Marker(name)] }

  /** Where the run that ends at `n` starts. */
  function RunStart(bag: seq<Entry>, n: nat): (i: nat)
    requires 0 < n <= |bag|
    ensures i < n
    ensures forall k :: i <= k < n - 1 ==> Continues(bag[k])
    ensures i > 0 ==> !Continues(bag[i - 1])
  {
    if n > 1 && Continues(bag[n - 2]) then RunStart(bag, n - 1) else n - 1
  }

  /** What the runs of the first `n` entries emit, or the failure of the first that fails. */
  function Emit(v: Vocabulary, bag: seq<Entry>, n: nat): Result<seq<Emitted>, Fault>
    requires n <= |bag|
    decreases n
  {
    if n == 0 then Ok([])
    else
      var i := RunStart(bag, n);
      var front :- Emit(v, bag, i);
      var links :- RunLinks(v, bag, i, n);
      Ok(front + [Chain(links)] + Markers(RunMarker(bag, i, n)))
  }

  // ----- every entry is used once, in order

  function AllLinks(es: seq<Emitted>): seq<Link> {
    if es == [] then []
    else
      var n := |es| - 1;
      AllLinks(es[..n]) + if es[n].Chain? then es[n].links else []
  }

  /** The positions, counted in links, at which a chain starts. */
  function Cuts(es: seq<Emitted>): set<nat> {
    if es == [] then {}
    else
      var n := |es| - 1;
      Cuts(es[..n]) + if es[n].Chain? then {|AllLinks(es[..n])|} else {}
  }

  /** Entry `k` starts a chain: it is the first, or the one before it lacks `chain`. */
  predicate Starts(bag: seq<Entry>, k: nat)
    requires k <= |bag|
  {
    k == 0 || !Continues(bag[k - 1])
  }

  /** The link entry `k` becomes. */
  function LinkOf(v: Vocabulary, bag: seq<Entry>, k: nat): Result<Link, Fault>
    requires k < |bag|
  {
    var link :- EntryLink(v, bag[k]);
    Ok(if Starts(bag, k) then link else DropChain(link))
  }

  lemma EmitStep(es: seq<Emitted>, links: seq<Link>, marker: string)
    ensures AllLinks(es + [Chain(links)] + Markers(marker)) == AllLinks(es) + links
    ensures Cuts(es + [Chain(links)] + Markers(marker)) == Cuts(es) + {|AllLinks(es)|}
  {
    var one := es + [Chain(links)];
    assert one[..|es|] == es;
    if marker != "" {
      assert (one + [Marker(marker)])[..|one|] == one;
    } else {
      assert one + [] == one;
    }
  }

  lemma {:induction false} RunLinksAt(v: Vocabulary, bag: seq<Entry>, i: nat, j: nat, k: nat)
    requires i <= k < j <= |bag| && RunLinks(v, bag, i, j).Ok?
    requires Starts(bag, i) && forall m :: i <= m < j - 1 ==> Continues(bag[m])
    ensures LinkOf(v, bag, k) == Ok(RunLinks(v, bag, i, j).value[k - i])
    decreases j
  {
    hide EntryLink, DropChain, Continues;
    if k < j - 1 { RunLinksAt(v, bag, i, j - 1, k); }
  }

  /** The links of the whole output are those of the entries, in order, none twice and none left
      out; `chain` is lost exactly by the entries that continue another. */
  lemma {:induction false} EmitsEveryEntry(v: Vocabulary, bag: seq<Entry>, n: nat)
    requires n <= |bag| && Emit(v, bag, n).Ok?
    ensures var ls := AllLinks(Emit(v, bag, n).value);
            |ls| == n && forall k :: 0 <= k < n ==> LinkOf(v, bag, k) == Ok(ls[k])
    decreases n
  {
    hide EntryLink, Continues, LinkOf, RunLinks, RunMarker, AllLinks;
    if n == 0 {
      NothingEmitted();
    } else {
      var i := RunStart(bag, n);
      var front := Emit(v, bag, i).value;
      var links := RunLinks(v, bag, i, n).value;
      EmitsEveryEntry(v, bag, i);
      EmitStep(front, links, RunMarker(bag, i, n));
      forall k | i <= k < n ensures LinkOf(v, bag, k) == Ok(links[k - i]) { RunLinksAt(v, bag, i, n, k); }
    }
  }

  lemma NothingEmitted()
    ensures AllLinks([]) == [] && Cuts([]) == {}
  {
  }

  /** Chains start exactly at the first entry and after every entry without `chain`. */
  lemma {:induction false} CutsExact(v: Vocabulary, bag: seq<Entry>, n: nat)
    requires n <= |bag| && Emit(v, bag, n).Ok?
    ensures Cuts(Emit(v, bag, n).value) == set k: nat | k < n && Starts(bag, k)
    decreases n
  {
    hide EntryLink, Continues, RunLinks, RunMarker, AllLinks, Cuts;
    if n == 0 {
      NothingEmitted();
    } else {
      var i := RunStart(bag, n);
      EmitsEveryEntry(v, bag, i);
      CutsExact(v, bag, i);
      EmitStep(Emit(v, bag, i).value, RunLinks(v, bag, i, n).value, RunMarker(bag, i, n));
      assert forall k: nat :: i < k < n ==> !Starts(bag, k);
    }
  }

  // ----- where markers stand

  /** The markers, each with the number of links before it. */
  function Marks(es: seq<Emitted>): set<(nat, string)> {
    if es == [] then {}
    else
      var n := |es| - 1;
      Marks(es[..n]) + if es[n].Marker? then {(|AllLinks(es[..n])|, es[n].name)} else {}
  }

  /** The entries from `s` to `p` are one run. */
  ghost predicate IsRun(bag: seq<Entry>, s: nat, p: nat) {
    s < p <= |bag| && Starts(bag, s) && Starts(bag, p) && forall k :: s < k < p ==> !Starts(bag, k)
  }

  /** The run ends at `p`, and its last entry has this marker or, having none, leaves it to its first. */
  ghost predicate Marked(bag: seq<Entry>, s: nat, p: nat, name: string) {
    IsRun(bag, s, p) && name != "" &&
    (bag[p - 1].marker == name || (bag[p - 1].marker == "" && bag[s].marker == name))
  }

  lemma MarksOne(es: seq<Emitted>, e: Emitted)
    ensures Marks(es + [e]) == Marks(es) + if e.Marker? then {(|AllLinks(es)|, e.name)} else {}
  {
    hide AllLinks;
    assert (es + [e])[..|es|] == es;
  }

  lemma MarkStep(es: seq<Emitted>, links: seq<Link>, marker: string)
    ensures Marks(es + [Chain(links)] + Markers(marker)) ==
            Marks(es) + if marker == "" then {} else {(|AllLinks(es)| + |links|, marker)}
  {
    hide AllLinks, Marks, Cuts;
    var one := es + [Chain(links)];
    MarksOne(es, Chain(links));
    EmitStep(es, links, "");
    assert one + [] == one;
    if marker != "" { MarksOne(one, Marker(marker)); }
  }

  lemma OneRun(bag: seq<Entry>, s: nat, i: nat, p: nat)
    requires IsRun(bag, s, p) && IsRun(bag, i, p)
    ensures s == i
  {
    hide Starts;
  }

  /** Each run is followed by the marker of its last entry or else of its first; there are no others. */
  lemma {:induction false} MarkersPlaced(v: Vocabulary, bag: seq<Entry>, n: nat)
    requires n <= |bag| && Starts(bag, n) && Emit(v, bag, n).Ok?
    ensures forall p: nat, name :: (p, name) in Marks(Emit(v, bag, n).value) <==> p <= n && exists s: nat :: Marked(bag, s, p, name)
    decreases n
  {
    hide EntryLink, Continues, RunLinks, AllLinks, Marks;
    if n == 0 {
      NoMarks();
    } else {
      var i := RunStart(bag, n);
      var front, m := Emit(v, bag, i).value, RunMarker(bag, i, n);
      MarkersPlaced(v, bag, i);
      EmitsEveryEntry(v, bag, i);
      MarkStep(front, RunLinks(v, bag, i, n).value, m);
      assert IsRun(bag, i, n);
      forall p: nat, name ensures (p, name) in Marks(Emit(v, bag, n).value) <==> p <= n && exists s: nat :: Marked(bag, s, p, name) {
        if (p, name) in Marks(Emit(v, bag, n).value) && p > i { assert Marked(bag, i, p, name); }
        if s: nat :| p <= n && Marked(bag, s, p, name) && p > i {
          assert p == n;
          OneRun(bag, s, i, n);
        }
      }
    }
  }

  lemma NoMarks()
    ensures Marks([]) == {}
  {
  }

  // ----- the flags of a legacy chain

  /** Exactly the links with a continuation carry `chain`. */
  ghost predicate FlagsRight(links: seq<Link>) {
    forall k :: 0 <= k < |links| ==> HasChain(links[k].actions.flow) == (k < |links| - 1)
  }

  lemma {:induction false} RunFlags(v: Vocabulary, bag: seq<Entry>, i: nat, j: nat)
    requires i < j <= |bag| && RunLinks(v, bag, i, j).Ok?
    ensures var links := RunLinks(v, bag, i, j).value;
            && HasChain(links[0].actions.flow) == Continues(bag[i])
            && forall k :: 0 < k < |links| ==> !HasChain(links[k].actions.flow)
    decreases j
  {
    hide HasChain, RuleToLink, WithoutChain;
    if j == i + 1 {
      RuleToLinkFlow(v, bag[i].meta, bag[i].conditions, bag[i].actions);
    } else {
      RunFlags(v, bag, i, j - 1);
    }
  }

  /** A run has its flags right exactly when it is one entry without `chain`, or two entries: in a
      longer one the middle links have lost `chain`. */
  lemma LegacyFlags(v: Vocabulary, bag: seq<Entry>, i: nat)
    requires i < |bag| && RunLinks(v, bag, i, RunEnd(bag, i)).Ok?
    ensures FlagsRight(RunLinks(v, bag, i, RunEnd(bag, i)).value) <==>
            RunEnd(bag, i) == i + 2 || (RunEnd(bag, i) == i + 1 && !Continues(bag[i]))
  {
    hide HasChain, RunLinks, RunEnd, Continues;
    RunFlags(v, bag, i, RunEnd(bag, i));
    var links := RunLinks(v, bag, i, RunEnd(bag, i)).value;
    if |links| > 2 { assert !HasChain(links[1].actions.flow); }
  }

  // ----- the conversion

  method ContinuationNode(link: Link) returns (node: Node)
    ensures fresh(node) && node.chained == null && node.AsLink() == DropChain(link)
  {
    hide WithoutChain;
    node := new Node(link);
    RemoveChain(node);
  }

  /** The chain of the run that starts at `i`, and where the run ends. */
  method BuildRun(v: Vocabulary, bag: seq<Entry>, i: nat)
    returns (r: Result<Node, Fault>, j: nat, ghost nodes: seq<Node>)
    requires i < |bag|
    ensures i < j <= |bag|
    ensures r.Err? ==> RunLinks(v, bag, i, RunEnd(bag, i)) == Err(r.error)
    ensures r.Ok? ==>
              && j == RunEnd(bag, i) && RunLinks(v, bag, i, j).Ok?
              && fresh(nodes) && nodes != [] && r.value == nodes[0]
              && Linked(nodes, RunLinks(v, bag, i, j).value)
  {
    hide EntryLink, Continues, DropChain, RunEnd, RunLinks;
    var first := EntryLink(v, bag[i]);
    RunStep(v, bag, i, i);
    if first.Err? { return Err(first.error), i + 1, []; }
    var head := new Node(first.value);
    var cur := head;
    nodes := [head];
    j := i + 1;
    while j < |bag| && Continues(bag[j - 1])
      invariant i < j <= |bag| && |nodes| == j - i
      invariant RunEnd(bag, i) == RunEnd(bag, j - 1)
      invariant RunLinks(v, bag, i, j).Ok? && fresh(nodes) && Linked(nodes, RunLinks(v, bag, i, j).value)
      invariant head == nodes[0] && cur == nodes[|nodes| - 1]
    {
      var link := EntryLink(v, bag[j]);
      RunStep(v, bag, i, j);
      if link.Err? { return Err(link.error), j, []; }
      var next := ContinuationNode(link.value);
      Attach(nodes, RunLinks(v, bag, i, j).value, cur, next);
      cur := next;
      nodes := nodes + [next];
      j := j + 1;
      RunEndStep(bag, j - 2);
    }
    RunEndStep(bag, j - 1);
    r := Ok(head);
  }

  lemma RunEndStep(bag: seq<Entry>, i: nat)
    requires i < |bag|
    ensures RunEnd(bag, i) == if i + 1 < |bag| && Continues(bag[i]) then RunEnd(bag, i + 1) else i + 1
  {
  }

  lemma {:induction false} RunFails(v: Vocabulary, bag: seq<Entry>, i: nat, j: nat, n: nat)
    requires i < j <= n <= |bag| && RunLinks(v, bag, i, j).Err?
    ensures RunLinks(v, bag, i, n) == RunLinks(v, bag, i, j)
    decreases n
  {
    hide EntryLink;
    if j < n { RunFails(v, bag, i, j, n - 1); }
  }

  /** A run fails as a whole as soon as the entry at `j` does. */
  lemma RunStep(v: Vocabulary, bag: seq<Entry>, i: nat, j: nat)
    requires i <= j < |bag| && j < RunEnd(bag, i) && (i < j ==> RunLinks(v, bag, i, j).Ok?)
    ensures EntryLink(v, bag[j]).Err? ==>
              RunLinks(v, bag, i, RunEnd(bag, i)) == Err(EntryLink(v, bag[j]).error)
    ensures EntryLink(v, bag[j]).Ok? ==>
              RunLinks(v, bag, i, j + 1) ==
              Ok(if j == i then [EntryLink(v, bag[j]).value]
                 else RunLinks(v, bag, i, j).value + [DropChain(EntryLink(v, bag[j]).value)])
  {
    hide EntryLink, DropChain, RunEnd;
    if EntryLink(v, bag[j]).Err? { RunFails(v, bag, i, j + 1, RunEnd(bag, i)); }
  }

  /** The directive shows what was emitted; `nodes` are those of its chain. */
  ghost predicate Shows(d: Directive, nodes: seq<Node>, e: Emitted)
    reads nodes
  {
    match e
    case Chain(links) => nodes != [] && d == SecRule(nodes[0]) && Linked(nodes, links)
    case Marker(name) => d == SecMarker(name)
  }

  /** Beside a failure come the directives of the runs before the one that fails, which starts at `n`. */
  method ConvertBag(v: Vocabulary, bag: seq<Entry>, marker: string)
    returns (out: seq<Directive>, fault: Option<Fault>, ghost chains: seq<seq<Node>>, ghost n: nat)
    ensures n <= |bag| && Emit(v, bag, n).Ok?
    ensures fault.None? ==> n == |bag|
    ensures fault.Some? ==>
              && n < |bag| && Starts(bag, n) && RunLinks(v, bag, n, RunEnd(bag, n)) == Err(fault.value)
              && Emit(v, bag, |bag|) == Err(fault.value)
    ensures var es := Emit(v, bag, n).value + if fault.None? then Markers(marker) else [];
            && |out| == |chains| == |es|
            && forall k :: 0 <= k < |es| ==> Shows(out[k], chains[k], es[k])
  {
    hide Emit, RunEnd, RunLinks, RunMarker, Continues, Linked;
    EmitNothing(v, bag);
    out, fault, chains := [], None, [];
    var i := 0;
    ghost var es: seq<Emitted> := [];
    while i < |bag|
      invariant i <= |bag| && (i < |bag| ==> Starts(bag, i)) && Emit(v, bag, i) == Ok(es)
      invariant |out| == |chains| == |es|
      invariant forall k :: 0 <= k < |es| ==> Shows(out[k], chains[k], es[k])
    {
      var chain, j, nodes := BuildRun(v, bag, i);
      EmitNext(v, bag, i);
      if chain.Err? {
        fault, n := Some(chain.error), i;
        return;
      }
      var m := if bag[j - 1].marker != "" then bag[j - 1].marker else bag[i].marker;
      assert m == RunMarker(bag, i, j) by { MarkerIs(bag, i, j); }
      out, chains := out + [SecRule(chain.value)], chains + [nodes];
      if m != "" { out, chains := out + [SecMarker(m)], chains + [[]]; }
      es := es + [Chain(RunLinks(v, bag, i, j).value)] + Markers(m);
      i := j;
    }
    if marker != "" {
      out, chains, es := out + [SecMarker(marker)], chains + [[]], es + [Marker(marker)];
    }
    n := |bag|;
  }

  lemma MarkerIs(bag: seq<Entry>, i: nat, j: nat)
    requires i < j <= |bag|
    ensures RunMarker(bag, i, j) == if bag[j - 1].marker != "" then bag[j - 1].marker else bag[i].marker
  {
  }

  lemma EmitNothing(v: Vocabulary, bag: seq<Entry>)
    ensures Emit(v, bag, 0) == Ok([])
  {
  }

  lemma {:induction false} RunStartOf(bag: seq<Entry>, i: nat, n: nat)
    requires i < n <= |bag| && Starts(bag, i) && forall k :: i <= k < n - 1 ==> Continues(bag[k])
    ensures RunStart(bag, n) == i
    decreases n
  {
    hide Continues;
    if i < n - 1 { RunStartOf(bag, i, n - 1); }
  }

  lemma EmitNext(v: Vocabulary, bag: seq<Entry>, i: nat)
    requires i < |bag| && Starts(bag, i) && Emit(v, bag, i).Ok?
    ensures var j := RunEnd(bag, i);
            && (j < |bag| ==> Starts(bag, j))
            && var links := RunLinks(v, bag, i, j);
            && (links.Err? ==> Emit(v, bag, |bag|) == Err(links.error))
            && (links.Ok? ==> Emit(v, bag, j) ==
                              Ok(Emit(v, bag, i).value + [Chain(links.value)] + Markers(RunMarker(bag, i, j))))
  {
    hide RunLinks, RunMarker, Continues, RunEnd, RunStart;
    var j := RunEnd(bag, i);
    RunStartOf(bag, i, j);
    if RunLinks(v, bag, i, j).Err? { EmitFails(v, bag, j, |bag|); }
  }

  lemma {:induction false} EmitFails(v: Vocabulary, bag: seq<Entry>, j: nat, n: nat)
    requires 0 < j <= n <= |bag| && Emit(v, bag, j).Err?
    requires j == |bag| || Starts(bag, j)
    ensures Emit(v, bag, n) == Emit(v, bag, j)
    decreases n
  {
    hide RunLinks, RunMarker, Continues;
    if j < n {
      var i := RunStart(bag, n);
      assert j <= i;
      EmitFails(v, bag, j, i);
    }
  }
}
