/** Which parts of a crslang rule survive the conversion to the resource and back: exact
    conditions, part by part. */
module SecRuleFidelity {
  import opened Text
  import opened SecRules
  import opened SecRuleChains
  import opened SecRuleRoundTrip

  /** What holds of the repository's name tables, and that crslang accepts a bare `chain`. */
  ghost predicate Sound(v: Vocabulary) {
    && "" !in v.variables && "" !in v.operators && v.accepts(CHAIN, "")
    && forall t :: t in v.transformations ==> Trim(t) == t
  }

  // ----- conditions

  function Respelled(c: Condition): Condition { c.(transformations := Each(c.transformations, British)) }

  predicate TransformationKnown(v: Vocabulary, t: string) {
    IsPath(British(t)) || (!IsUnknown(t) && t in v.transformations)
  }

  predicate OperatorSurvives(v: Vocabulary, o: Operator, always: bool) {
    if always then o == NO_OPERATOR else o.name in v.operators || o.name == v.noOperator
  }

  ghost predicate ConditionSurvives(v: Vocabulary, c: Condition) {
    && (forall x :: x in c.variables ==> x.name in v.variables || x.name == v.noVariable)
    && (forall x :: x in c.collections ==> x.name in v.collections || x.name == UNKNOWN_COLLECTION)
    && OperatorSurvives(v, c.operator, c.always)
    && forall t :: t in c.transformations ==> TransformationKnown(v, t)
  }

  function ConditionBack(v: Vocabulary, c: Condition): Result<Condition, Fault> {
    var a :- ConditionToApi(v, c);
    ConditionToCrs(v, a)
  }

  lemma VariablesBack(v: Vocabulary, xs: seq<Variable>)
    requires Sound(v)
    ensures Each(Each(xs, x => VariableToApi(v, x)), x => VariableToCrs(v, x)) == xs <==>
            forall x :: x in xs ==> x.name in v.variables || x.name == v.noVariable
  {
    var ys := Each(Each(xs, x => VariableToApi(v, x)), x => VariableToCrs(v, x));
    assert forall i :: 0 <= i < |xs| ==> ys[i] == VariableToCrs(v, VariableToApi(v, xs[i]));
    if ys == xs {
      forall x | x in xs ensures x.name in v.variables || x.name == v.noVariable {
        var i :| 0 <= i < |xs| && xs[i] == x;
        assert ys[i] == xs[i];
      }
    }
  }

  lemma CollectionsBack(v: Vocabulary, xs: seq<Collection>)
    ensures Each(Each(xs, x => CollectionKnown(v, x)), x => CollectionKnown(v, x)) == xs <==>
            forall x :: x in xs ==> x.name in v.collections || x.name == UNKNOWN_COLLECTION
  {
    var ys := Each(Each(xs, x => CollectionKnown(v, x)), x => CollectionKnown(v, x));
    assert forall i :: 0 <= i < |xs| ==> ys[i] == CollectionKnown(v, CollectionKnown(v, xs[i]));
    if ys == xs {
      forall x | x in xs ensures x.name in v.collections || x.name == UNKNOWN_COLLECTION {
        var i :| 0 <= i < |xs| && xs[i] == x;
        assert ys[i] == xs[i];
      }
    }
  }

  lemma TransformationBack(v: Vocabulary, t: string)
    requires Sound(v)
    ensures TransformationToApi(v, t).Ok? <==> TransformationKnown(v, t)
    ensures TransformationKnown(v, t) ==>
              && TransformationToApi(v, t) == Ok(British(t))
              && TransformationToCrs(v, British(t)) == Ok(British(t))
  {
    hide Trim;
    assert Trim("normalisePath") == "normalisePath" && Trim("normalisePathWin") == "normalisePathWin" by {
      PathsTrim();
    }
  }

  lemma PathsTrim()
    ensures Trim("normalisePath") == "normalisePath" && Trim("normalisePathWin") == "normalisePathWin"
  {
  }

  lemma TryFails<A, B, E>(s: seq<A>, f: A -> Result<B, E>, i: nat)
    requires i < |s| && f(s[i]).Err?
    ensures Try(s, f).Err?
  {
  }

  lemma TransformationsBack(v: Vocabulary, ts: seq<string>)
    requires Sound(v)
    ensures Try(ts, t => TransformationToApi(v, t)).Ok? <==> forall t :: t in ts ==> TransformationKnown(v, t)
    ensures (forall t :: t in ts ==> TransformationKnown(v, t)) ==>
              && Try(ts, t => TransformationToApi(v, t)) == Ok(Each(ts, British))
              && Try(Each(ts, British), t => TransformationToCrs(v, t)) == Ok(Each(ts, British))
  {
    hide TransformationToApi, TransformationToCrs, TransformationKnown, British, Try;
    forall t ensures TransformationToApi(v, t).Ok? <==> TransformationKnown(v, t) { TransformationBack(v, t); }
    if forall t :: t in ts ==> TransformationKnown(v, t) {
      forall i | 0 <= i < |ts| { TransformationBack(v, ts[i]); }
      TryFrom(ts, t => TransformationToApi(v, t), Each(ts, British));
      TryFrom(Each(ts, British), t => TransformationToCrs(v, t), Each(ts, British));
    } else {
      var i :| 0 <= i < |ts| && !TransformationKnown(v, ts[i]);
      TryFails(ts, t => TransformationToApi(v, t), i);
    }
  }

  lemma OperatorBack(v: Vocabulary, o: Operator, always: bool)
    requires Sound(v)
    ensures OperatorToCrs(v, OperatorToApi(v, o, always), always) == o <==> OperatorSurvives(v, o, always)
  {
  }

  /** A condition comes back, with the British spelling, exactly when its names are known. */
  lemma ConditionBackExact(v: Vocabulary, c: Condition)
    requires Sound(v)
    ensures ConditionBack(v, c) == Ok(Respelled(c)) <==> ConditionSurvives(v, c)
  {
    hide Sound, Each, Try, VariableToApi, VariableToCrs, CollectionKnown, OperatorToApi, OperatorToCrs,
         TransformationKnown, OperatorSurvives, TransformationToApi, TransformationToCrs;
    VariablesBack(v, c.variables);
    CollectionsBack(v, c.collections);
    TransformationsBack(v, c.transformations);
    OperatorBack(v, c.operator, c.always);
  }

  // ----- actions

  /** The key has a place in the resource and the parameter is read back as it was. */
  predicate Survives(v: Vocabulary, kind: Kind, a: Action) {
    && (a.key in Keys(kind) || a.key == "unknown")
    && v.accepts(a.key, a.param) && ApiParam(kind, a) == a.param
  }

  /** A parameter is read back exactly when there is none and none is looked for, or when the
      resource keeps it and it neither starts nor ends with a tick. */
  lemma ParamReadBack(kind: Kind, a: Action)
    ensures ApiParam(kind, a) == a.param <==>
            if a.param == "" then kind == Data || !KeepsParam(kind, a.key)
            else KeepsParam(kind, a.key) && a.param[0] != '\'' && a.param[|a.param| - 1] != '\''
  {
    hide KeepsParam;
    if kind != Data && KeepsParam(kind, a.key) { KeyHasNoTicks(kind, a.key); }
  }

  lemma KeyHasNoTicks(kind: Kind, key: string)
    requires kind != Data && KeepsParam(kind, key)
    ensures key != "" && key[0] != '\'' && key[|key| - 1] != '\''
  {
  }

  lemma ActionBack(v: Vocabulary, kind: Kind, a: Action)
    ensures ActionToCrs(v, kind, ActionToApi(kind, a)) == Ok(a) <==> Survives(v, kind, a)
  {
    hide Keys, ApiParam;
  }

  lemma ListBack(v: Vocabulary, kind: Kind, s: seq<Action>)
    ensures Try(Each(s, ToApi(kind)), ToCrs(v, kind)) == Ok(s) <==> forall a :: a in s ==> Survives(v, kind, a)
  {
    hide ActionToApi, ActionToCrs, Survives, Try;
    var t := Each(s, ToApi(kind));
    assert forall i :: 0 <= i < |s| ==> t[i] == ActionToApi(kind, s[i]);
    forall a ensures ActionToCrs(v, kind, ActionToApi(kind, a)) == Ok(a) <==> Survives(v, kind, a) {
      ActionBack(v, kind, a);
    }
    if Try(t, ToCrs(v, kind)) == Ok(s) {
      forall a | a in s ensures Survives(v, kind, a) {
        var i :| 0 <= i < |s| && s[i] == a;
        assert ToCrs(v, kind)(t[i]) == Ok(s[i]);
      }
    } else if forall a :: a in s ==> Survives(v, kind, a) {
      TryFrom(t, ToCrs(v, kind), s);
    }
  }

  // ----- flow actions, up to the place of `chain`

  lemma {:induction false} WithoutChainEach(flow: seq<Action>)
    ensures WithoutChain(Each(flow, ToApi(Flow))) == Each(WithoutChain(flow), ToApi(Flow))
  {
    hide ApiParam;
    if flow != [] {
      var n := |flow| - 1;
      WithoutChainEach(flow[..n]);
      assert Each(flow, ToApi(Flow))[..n] == Each(flow[..n], ToApi(Flow));
    }
  }

  lemma {:induction false} NoChainSame(flow: seq<Action>)
    requires !HasChain(flow)
    ensures WithoutChain(flow) == flow
  {
    if flow != [] {
      var n := |flow| - 1;
      assert flow == flow[..n] + [flow[n]];
      assert flow[n].key != CHAIN;
      assert !HasChain(flow[..n]) by { assert forall i :: 0 <= i < n ==> flow[..n][i] == flow[i]; }
      NoChainSame(flow[..n]);
    }
  }

  /** The flow actions as the resource holds them, with `chain` put back when the link continues. */
  function FlowOut(flow: seq<Action>, more: bool): seq<Action> {
    WithoutChain(Each(flow, ToApi(Flow))) + if more then [Action(CHAIN, "")] else []
  }

  lemma TrySnoc(v: Vocabulary, s: seq<Action>)
    requires v.accepts(CHAIN, "")
    ensures var r, t := Try(s, ToCrs(v, Flow)), Try(s + [Action(CHAIN, "")], ToCrs(v, Flow));
            && (r.Err? ==> t == Err(r.error))
            && (r.Ok? ==> t == Ok(r.value + [Action(CHAIN, "")]))
  {
    assert (s + [Action(CHAIN, "")])[..|s|] == s;
    assert ToCrs(v, Flow)(Action(CHAIN, "")) == Ok(Action(CHAIN, ""));
  }

  lemma ChainFlags(r: seq<Action>)
    requires !HasChain(r)
    ensures WithoutChain(r + [Action(CHAIN, "")]) == r && HasChain(r + [Action(CHAIN, "")])
    ensures WithoutChain(r + []) == r && !HasChain(r + [])
  {
    NoChainSame(r);
    assert (r + [Action(CHAIN, "")])[..|r|] == r && (r + [Action(CHAIN, "")])[|r|].key == CHAIN;
    assert r + [] == r;
  }

  lemma FlowBack(v: Vocabulary, flow: seq<Action>, more: bool)
    requires Sound(v)
    ensures var r := Try(FlowOut(flow, more), ToCrs(v, Flow));
            && (r.Ok? ==> HasChain(r.value) == more)
            && ((r.Ok? && WithoutChain(r.value) == WithoutChain(flow)) <==>
                forall a :: a in WithoutChain(flow) ==> Survives(v, Flow, a))
  {
    hide Try, Survives, HasChain, WithoutChain, ActionToCrs;
    var w := WithoutChain(flow);
    var s := Each(w, ToApi(Flow));
    WithoutChainEach(flow);
    ListBack(v, Flow, w);
    TrySnoc(v, s);
    assert s + [] == s;
    var r := Try(s, ToCrs(v, Flow));
    ChainStays(v, s);
    KeepsNoChain(w);
    if r.Ok? { ChainFlags(r.value); assert r.value + [] == r.value; }
  }

  lemma KeepsNoChain(w: seq<Action>)
    requires !HasChain(w)
    ensures !HasChain(Each(w, ToApi(Flow)))
  {
    hide ApiParam;
    var s := Each(w, ToApi(Flow));
    assert forall i :: 0 <= i < |w| ==> s[i].key == w[i].key;
  }

  // ----- non-disruptive actions, up to one set-variable action per assignment

  function Texts(q: Quiet): seq<Action> {
    match q
    case One(a) => [a]
    case SetVar(c, op, sets) => Each(sets, x => SetText(c, op, x))
  }

  function AllTexts(quiet: seq<Quiet>): seq<Action> { Flatten(Each(quiet, Texts)) }

  ghost predicate QuietSurvives(v: Vocabulary, q: Quiet) {
    match q
    case One(a) => Survives(v, NonDisruptive, a)
    case SetVar(c, op, sets) => forall x :: x in sets ==> v.accepts("setvar", SetText(c, op, x).param)
  }

  lemma TryConcat<A, B, E>(a: seq<A>, b: seq<A>, f: A -> Result<B, E>, x: seq<B>, y: seq<B>)
    requires |x| == |a|
    ensures Try(a + b, f) == Ok(x + y) <==> Try(a, f) == Ok(x) && Try(b, f) == Ok(y)
  {
    hide Try;
    if Try(a + b, f) == Ok(x + y) {
      assert forall i :: 0 <= i < |a + b| ==> f((a + b)[i]) == Ok((x + y)[i]);
      assert forall i :: 0 <= i < |a| ==> (a + b)[i] == a[i] && (x + y)[i] == x[i];
      assert forall i :: 0 <= i < |b| ==> (a + b)[|a| + i] == b[i] && (x + y)[|a| + i] == y[i];
      TryFrom(a, f, x);
      TryFrom(b, f, y);
    } else if Try(a, f) == Ok(x) && Try(b, f) == Ok(y) {
      TryFrom(a + b, f, x + y);
    }
  }

  lemma QuietOneBack(v: Vocabulary, q: Quiet)
    ensures |QuietToApi(q)| == |Texts(q)|
    ensures Try(QuietToApi(q), ToCrs(v, NonDisruptive)) == Ok(Texts(q)) <==> QuietSurvives(v, q)
  {
    hide Survives, Try, SetText;
    match q
    case One(a) =>
      ListBack(v, NonDisruptive, [a]);
      assert Each([a], ToApi(NonDisruptive)) == [ActionToApi(NonDisruptive, a)];
    case SetVar(c, op, sets) =>
      SetsBack(v, c, op, sets);
  }

  lemma SetsBack(v: Vocabulary, c: string, op: string, sets: seq<(string, string)>)
    ensures var ts := Each(sets, x => SetText(c, op, x));
            Try(ts, ToCrs(v, NonDisruptive)) == Ok(ts) <==>
            forall x :: x in sets ==> v.accepts("setvar", SetText(c, op, x).param)
  {
    hide Try;
    var ts := Each(sets, x => SetText(c, op, x));
    var f := ToCrs(v, NonDisruptive);
    assert forall i :: 0 <= i < |sets| ==> ts[i] == SetText(c, op, sets[i]);
    assert forall i :: 0 <= i < |sets| ==> (f(ts[i]) == Ok(ts[i]) <==> v.accepts("setvar", ts[i].param));
    if Try(ts, f) == Ok(ts) {
      forall x | x in sets ensures v.accepts("setvar", SetText(c, op, x).param) {
        var i :| 0 <= i < |sets| && sets[i] == x;
        assert f(ts[i]) == Ok(ts[i]);
      }
    } else if forall x :: x in sets ==> v.accepts("setvar", SetText(c, op, x).param) {
      TryFrom(ts, f, ts);
    }
  }

  lemma FlattenSplit<T>(quiet: seq<Quiet>, f: Quiet -> seq<T>)
    requires quiet != []
    ensures var n := |quiet| - 1;
            Flatten(Each(quiet, f)) == Flatten(Each(quiet[..n], f)) + f(quiet[n])
  {
    assert Each(quiet, f)[..|quiet| - 1] == Each(quiet[..|quiet| - 1], f);
  }

  lemma {:induction false} QuietBack(v: Vocabulary, quiet: seq<Quiet>)
    ensures |Flatten(Each(quiet, QuietToApi))| == |AllTexts(quiet)|
    ensures Try(Flatten(Each(quiet, QuietToApi)), ToCrs(v, NonDisruptive)) == Ok(AllTexts(quiet)) <==>
            forall q :: q in quiet ==> QuietSurvives(v, q)
    decreases |quiet|, 1
  {
    if quiet != [] { QuietBackStep(v, quiet); }
  }

  lemma {:induction false} QuietBackStep(v: Vocabulary, quiet: seq<Quiet>)
    requires quiet != []
    ensures |Flatten(Each(quiet, QuietToApi))| == |AllTexts(quiet)|
    ensures Try(Flatten(Each(quiet, QuietToApi)), ToCrs(v, NonDisruptive)) == Ok(AllTexts(quiet)) <==>
            forall q :: q in quiet ==> QuietSurvives(v, q)
    decreases |quiet|, 0
  {
    hide QuietToApi, Texts, QuietSurvives, Flatten, Try, Each, ToCrs;
    var n := |quiet| - 1;
    QuietBack(v, quiet[..n]);
    QuietOneBack(v, quiet[n]);
    FlattenSplit(quiet, QuietToApi);
    FlattenSplit(quiet, Texts);
    TryConcat(Flatten(Each(quiet[..n], QuietToApi)), QuietToApi(quiet[n]), ToCrs(v, NonDisruptive),
              AllTexts(quiet[..n]), Texts(quiet[n]));
    assert quiet == quiet[..n] + [quiet[n]];
  }

  lemma {:induction false} OnesTexts(s: seq<Action>)
    ensures AllTexts(Each(s, AsOne)) == s
  {
    if s != [] {
      var n := |s| - 1;
      OnesTexts(s[..n]);
      var ones := Each(s, AsOne);
      assert Each(ones, Texts)[..n] == Each(Each(s[..n], AsOne), Texts);
      assert s == s[..n] + [s[n]];
    }
  }
}
