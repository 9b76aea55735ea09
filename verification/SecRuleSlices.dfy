/** The actions of a resource as Go holds them: slices over shared arrays. Deriving the actions of
    a chain link copies what it may extend, so the resource reads the same afterwards. */
module SecRuleSlices {
  import opened Text
  import opened SecRules

  /** The first `len` elements of `buf`, whose length is the capacity. */
  datatype Slice = Slice(buf: array<Action>, len: nat)

  predicate Fits(s: Slice) { s.len <= s.buf.Length }

  function View(s: Slice): seq<Action>
    requires Fits(s)
    reads s.buf
  {
    s.buf[..s.len]
  }

  /** `append(s, x)`: in place while the capacity lasts, in a new array after that. */
  method Append(s: Slice, x: Action) returns (r: Slice)
    requires Fits(s)
    modifies s.buf
    ensures Fits(r) && View(r) == old(View(s)) + [x] && View(s) == old(View(s))
    ensures if s.len < s.buf.Length then r.buf == s.buf else fresh(r.buf) && s.buf[..] == old(s.buf[..])
  {
    if s.len < s.buf.Length {
      s.buf[s.len] := x;
      return Slice(s.buf, s.len + 1);
    }
    var buf := new Action[2 * s.len + 1](i => x);
    for i := 0 to s.len
      invariant forall k :: 0 <= k < i ==> buf[k] == s.buf[k]
      invariant buf[s.len] == x && s.buf[..] == old(s.buf[..])
    {
      buf[i] := s.buf[i];
    }
    r := Slice(buf, s.len + 1);
  }

  /** `append([]T{}, s...)` when `s` has elements; an empty slice is passed on as it is. */
  method CopyIfAny(s: Slice) returns (r: Slice)
    requires Fits(s)
    ensures Fits(r) && View(r) == View(s) && r.len == s.len
    ensures if s.len > 0 then fresh(r.buf) else r == s
  {
    if s.len == 0 { return s; }
    var buf := new Action[s.len](i => Action("", ""));
    for i := 0 to s.len
      invariant forall k :: 0 <= k < i ==> buf[k] == s.buf[k]
    {
      buf[i] := s.buf[i];
    }
    r := Slice(buf, s.len);
  }

  /** Actions of the resource. */
  datatype SpecActions = SpecActions(disruptive: Option<Action>, flow: Slice, quiet: Slice, data: Slice)

  predicate AllFit(a: SpecActions) { Fits(a.flow) && Fits(a.quiet) && Fits(a.data) }

  /** The array of an empty slice `s` is not one that `t` shows elements of. */
  predicate Clear(s: Slice, t: Slice) { s.len == 0 && t.len > 0 ==> s.buf != t.buf }

  /** If `a` has no flow actions, the spare room of its flow slice is not where `b` keeps actions. */
  predicate Spares(a: SpecActions, b: SpecActions) {
    Clear(a.flow, b.flow) && Clear(a.flow, b.quiet) && Clear(a.flow, b.data)
  }

  function Values(a: SpecActions): ApiActions
    requires AllFit(a)
    reads a.flow.buf, a.quiet.buf, a.data.buf
  {
    Actions(a.disruptive, View(a.flow), View(a.quiet), View(a.data))
  }

  method StripDisruptiveActions(a: SpecActions) returns (r: SpecActions)
    requires AllFit(a) && Spares(a, a)
    ensures AllFit(r) && Spares(r, r) && Some(Values(r)) == StripDisruptive(Some(Values(a)))
    ensures r.flow.len == a.flow.len && if a.flow.len > 0 then fresh(r.flow.buf) else r.flow == a.flow
  {
    var flow := CopyIfAny(a.flow);
    var quiet := CopyIfAny(a.quiet);
    var data := CopyIfAny(a.data);
    r := SpecActions(None, flow, quiet, data);
  }

  method HasChainInActions(a: SpecActions) returns (found: bool)
    requires AllFit(a)
    ensures found == HasChain(Values(a).flow)
  {
    found := false;
    for i := 0 to a.flow.len
      invariant found == exists k :: 0 <= k < i && a.flow.buf[k].key == CHAIN
    {
      if a.flow.buf[i].key == CHAIN { found := true; }
    }
    assert forall k :: 0 <= k < a.flow.len ==> View(a.flow)[k] == a.flow.buf[k];
  }

  /** The values with `chain` present. The only array that may be written to is that of an empty
      flow slice. */
  method EnsureChainAction(a: SpecActions) returns (r: ApiActions)
    requires AllFit(a) && Spares(a, a)
    modifies if a.flow.len == 0 then {a.flow.buf} else {}
    ensures r == EnsureChain(old(Some(Values(a)))) && Values(a) == old(Values(a))
  {
    hide HasChain;
    var flow := CopyIfAny(a.flow);
    var quiet := CopyIfAny(a.quiet);
    var data := CopyIfAny(a.data);
    var out := SpecActions(a.disruptive, flow, quiet, data);
    var found := HasChainInActions(out);
    if !found {
      var longer := Append(out.flow, Action(CHAIN, ""));
      out := out.(flow := longer);
    }
    r := Values(out);
  }

  // ----- a whole rule

  datatype SpecMatch = SpecMatch(condition: Condition, actions: Option<SpecActions>)

  datatype SpecRule = SpecRule(
    meta: Option<Metadata>, matches: seq<SpecMatch>, actions: Option<SpecActions>, marker: string)

  /** The actions of each match, and after them the rule's own. */
  function RecordAt(rule: SpecRule, i: nat): Option<SpecActions>
    requires i <= |rule.matches|
  {
    if i < |rule.matches| then rule.matches[i].actions else rule.actions
  }

  predicate Fitting(rule: SpecRule) {
    forall i :: 0 <= i <= |rule.matches| && RecordAt(rule, i).Some? ==> AllFit(RecordAt(rule, i).value)
  }

  /** No empty flow slice has its spare room where the rule keeps actions. */
  predicate Separate(rule: SpecRule) {
    forall i, j :: 0 <= i <= |rule.matches| && 0 <= j <= |rule.matches| && RecordAt(rule, i).Some? && RecordAt(rule, j).Some? ==>
      Spares(RecordAt(rule, i).value, RecordAt(rule, j).value)
  }

  function Arrays(a: SpecActions): set<array<Action>> { {a.flow.buf, a.quiet.buf, a.data.buf} }

  ghost function AllArrays(rule: SpecRule): set<array<Action>> {
    set i, b | 0 <= i <= |rule.matches| && RecordAt(rule, i).Some? && b in Arrays(RecordAt(rule, i).value) :: b
  }

  /** The arrays that deriving a chain may write to: those of empty flow slices. */
  ghost function Room(rule: SpecRule): set<array<Action>> {
    set i | 0 <= i <= |rule.matches| && RecordAt(rule, i).Some? && RecordAt(rule, i).value.flow.len == 0 ::
      RecordAt(rule, i).value.flow.buf
  }

  ghost function RecordValues(rule: SpecRule, i: nat): Option<ApiActions>
    requires Fitting(rule) && i <= |rule.matches|
    reads AllArrays(rule)
  {
    var a := RecordAt(rule, i);
    if a.None? then None
    else
      assert Arrays(a.value) <= AllArrays(rule);
      Some(Values(a.value))
  }

  /** The rule as it reads. */
  ghost function RuleValues(rule: SpecRule): (r: Rule)
    requires Fitting(rule)
    reads AllArrays(rule)
    ensures |r.matches| == |rule.matches|
  {
    Rule(rule.meta,
         seq(|rule.matches|, i requires 0 <= i < |rule.matches| reads AllArrays(rule) =>
           Match(rule.matches[i].condition, RecordValues(rule, i))),
         RecordValues(rule, |rule.matches|), rule.marker)
  }

  /** The rule reads as before when every slice that shows elements has its array unchanged. */
  twostate lemma RuleStays(rule: SpecRule)
    requires Fitting(rule)
    requires forall i :: 0 <= i <= |rule.matches| && RecordAt(rule, i).Some? ==>
               Values(RecordAt(rule, i).value) == old(Values(RecordAt(rule, i).value))
    ensures RuleValues(rule) == old(RuleValues(rule))
  {
    hide Values;
    assert forall i :: 0 <= i <= |rule.matches| ==> RecordValues(rule, i) == old(RecordValues(rule, i));
    assert RuleValues(rule).matches == old(RuleValues(rule).matches);
  }
}
