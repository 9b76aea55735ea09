/** SecRules in their two forms: the custom resource (a list of matches with actions, or a legacy
    bag of rules) and crslang's rules with conditions, and the conversions of their parts. */
module SecRules {
  import opened Text

  // ----- the vocabulary

  /** Names both sides share, and what the conversions take from code outside the repository:
      the values crslang gives an unset variable or operator name, the actions its constructors
      accept, and the clean-up of rule comments. */
  datatype Vocabulary = Vocabulary(
    variables: set<string>, collections: set<string>, operators: set<string>, transformations: set<string>,
    noVariable: string, noOperator: string,
    accepts: (string, string) -> bool, tidy: string -> string)

  const UNKNOWN_COLLECTION := "UNKNOWN_COLLECTION"
  const UNKNOWN_OPERATOR := "unknownOperator"
  const UNCONDITIONAL := "unconditionalMatch"
  const CHAIN := "chain"

  datatype Fault = BadTransformation(name: string) | BadAction(key: string, param: string)

  // ----- conditions

  datatype Variable = Variable(name: string, excluded: bool)

  datatype Collection = Collection(name: string, arguments: seq<string>, excluded: bool, count: bool)

  datatype Operator = Operator(name: string, negate: bool, value: string)

  datatype Condition = Condition(
    variables: seq<Variable>, collections: seq<Collection>, operator: Operator,
    transformations: seq<string>, always: bool, script: string)

  /** The operator of a rule that always matches. */
  const NO_OPERATOR := Operator(UNKNOWN_OPERATOR, false, "")

  function Each<A, B>(s: seq<A>, f: A -> B): (r: seq<B>)
    ensures |r| == |s| && forall i :: 0 <= i < |s| ==> r[i] == f(s[i])
  {
    seq(|s|, i requires 0 <= i < |s| => f(s[i]))
  }

  /** Every element converted, or the first failure. */
  function Try<A, B, E>(s: seq<A>, f: A -> Result<B, E>): (r: Result<seq<B>, E>)
    ensures r.Ok? ==> |r.value| == |s| && forall i :: 0 <= i < |s| ==> f(s[i]) == Ok(r.value[i])
  {
    if s == [] then Ok([])
    else
      var n := |s| - 1;
      var front :- Try(s[..n], f);
      var last :- f(s[n]);
      Ok(front + [last])
  }

  lemma {:induction false} TryFrom<A, B, E>(s: seq<A>, f: A -> Result<B, E>, t: seq<B>)
    requires |t| == |s| && forall i :: 0 <= i < |s| ==> f(s[i]) == Ok(t[i])
    ensures Try(s, f) == Ok(t)
  {
    if s != [] {
      var n := |s| - 1;
      TryFrom(s[..n], f, t[..n]);
      assert t == t[..n] + [t[n]];
    }
  }

  /** The British spelling of the path transformations. */
  function British(t: string): string {
    if t == "normalizePath" then "normalisePath"
    else if t == "normalizePathWin" then "normalisePathWin"
    else t
  }

  predicate IsPath(t: string) { t == "normalisePath" || t == "normalisePathWin" }

  predicate IsUnknown(t: string) { t == "" || t == "unknown" || t == "unknownTransformation" }

  function TransformationToApi(v: Vocabulary, t: string): Result<string, Fault> {
    if IsPath(British(t)) then Ok(British(t))
    else if IsUnknown(t) || t !in v.transformations then Err(BadTransformation(t))
    else Ok(t)
  }

  function TransformationToCrs(v: Vocabulary, t: string): Result<string, Fault> {
    var u := Trim(t);
    if IsUnknown(u) then Err(BadTransformation(t))
    else if IsPath(British(u)) then Ok(British(u))
    else if IsUnknown(t) || t !in v.transformations then Err(BadTransformation(t))
    else Ok(t)
  }

  function VariableToApi(v: Vocabulary, x: Variable): Variable {
    x.(name := if x.name in v.variables then x.name else "")
  }

  function VariableToCrs(v: Vocabulary, x: Variable): Variable {
    x.(name := if x.name in v.variables then x.name else v.noVariable)
  }

  function CollectionKnown(v: Vocabulary, c: Collection): Collection {
    c.(name := if c.name in v.collections then c.name else UNKNOWN_COLLECTION)
  }

  function OperatorToApi(v: Vocabulary, o: Operator, always: bool): Operator {
    var name := if o.name in v.operators then o.name else "";
    o.(name := if always && (name == "" || name == UNKNOWN_OPERATOR) then UNCONDITIONAL else name)
  }

  function OperatorToCrs(v: Vocabulary, o: Operator, always: bool): Operator {
    if always then NO_OPERATOR
    else o.(name := if o.name == "" then v.noOperator else if o.name in v.operators then o.name else "eq")
  }

  function ConditionToApi(v: Vocabulary, c: Condition): Result<Condition, Fault> {
    var ts :- Try(c.transformations, t => TransformationToApi(v, t));
    Ok(Condition(Each(c.variables, x => VariableToApi(v, x)), Each(c.collections, x => CollectionKnown(v, x)),
                 OperatorToApi(v, c.operator, c.always), ts, c.always, c.script))
  }

  function ConditionToCrs(v: Vocabulary, c: Condition): Result<Condition, Fault> {
    var ts :- Try(c.transformations, t => TransformationToCrs(v, t));
    Ok(Condition(Each(c.variables, x => VariableToCrs(v, x)), Each(c.collections, x => CollectionKnown(v, x)),
                 OperatorToCrs(v, c.operator, c.always), ts, c.always, c.script))
  }

  // ----- actions

  /** An action and its parameter, empty when it has none. */
  datatype Action = Action(key: string, param: string)

  /** A non-disruptive action of crslang: a set-variable action may hold several assignments. */
  datatype Quiet = One(action: Action) | SetVar(collection: string, op: string, sets: seq<(string, string)>)

  datatype Actions<+Q> = Actions(disruptive: Option<Action>, flow: seq<Action>, quiet: seq<Q>, data: seq<Action>)

  type ApiActions = Actions<Action>

  type CrsActions = Actions<Quiet>

  const NO_ACTIONS: CrsActions := Actions(None, [], [], [])

  datatype Kind = Disruptive | Flow | NonDisruptive | Data

  function Keys(kind: Kind): set<string> {
    match kind
    case Disruptive => {"allow", "block", "deny", "drop", "pass", "pause", "proxy", "redirect"}
    case Flow => {CHAIN, "skip", "skipAfter"}
    case NonDisruptive =>
      {"append", "auditlog", "capture", "ctl", "deprecatevar", "exec", "expirevar", "initcol", "log", "logdata",
       "multiMatch", "noauditlog", "nolog", "sanitiseArg", "sanitiseMatched", "sanitiseMatchedBytes",
       "sanitiseRequestHeader", "sanitiseResponseHeader", "setenv", "setrsc", "setsid", "setuid", "setvar"}
    case Data => {"status", "xmlns"}
  }

  /** The keys whose parameter the resource keeps. */
  predicate KeepsParam(kind: Kind, key: string) {
    match kind
    case Disruptive => key == "redirect"
    case Flow => key in {"skip", "skipAfter"}
    case NonDisruptive =>
      key in {"ctl", "exec", "expirevar", "initcol", "logdata", "setenv", "setvar", "setrsc", "setsid", "setuid"}
    case Data => true
  }

  function TrimTicks(s: string): (r: string)
    ensures |r| <= |s|
    decreases |s|
  {
    if s != "" && s[0] == '\'' then TrimTicks(s[1..])
    else if s != "" && s[|s| - 1] == '\'' then TrimTicks(s[..|s| - 1])
    else s
  }

  /** Reading the parameter back from the printed action: an action without parameter prints as
      its key alone, which the reader takes for the parameter (data actions excepted). */
  function ApiParam(kind: Kind, a: Action): string {
    if !KeepsParam(kind, a.key) then ""
    else if a.param != "" then TrimTicks(a.param)
    else if kind == Data then ""
    else TrimTicks(a.key)
  }

  function ActionToApi(kind: Kind, a: Action): Action { Action(a.key, ApiParam(kind, a)) }

  function ActionToCrs(v: Vocabulary, kind: Kind, a: Action): Result<Action, Fault> {
    var key := if a.key in Keys(kind) then a.key else "unknown";
    if v.accepts(key, a.param) then Ok(Action(key, a.param)) else Err(BadAction(key, a.param))
  }

  function ToApi(kind: Kind): Action -> Action { a => ActionToApi(kind, a) }

  function ToCrs(v: Vocabulary, kind: Kind): Action -> Result<Action, Fault> { a => ActionToCrs(v, kind, a) }

  function SetText(collection: string, op: string, set_: (string, string)): Action {
    Action("setvar", collection + "." + set_.0 + op + set_.1)
  }

  function QuietToApi(q: Quiet): seq<Action> {
    match q
    case One(a) => [ActionToApi(NonDisruptive, a)]
    case SetVar(c, op, sets) => Each(sets, x => SetText(c, op, x))
  }

  function Flatten<T>(s: seq<seq<T>>): seq<T> {
    if s == [] then [] else Flatten(s[..|s| - 1]) + s[|s| - 1]
  }

  function ActionsToApi(a: CrsActions): ApiActions {
    Actions(if a.disruptive.None? then None else Some(ActionToApi(Disruptive, a.disruptive.value)),
            Each(a.flow, ToApi(Flow)),
            Flatten(Each(a.quiet, QuietToApi)),
            Each(a.data, ToApi(Data)))
  }

  function ActionsToCrs(v: Vocabulary, a: ApiActions): Result<CrsActions, Fault> {
    var data :- Try(a.data, ToCrs(v, Data));
    var disruptive :- if a.disruptive.None? then Ok(None) else AsSome(ActionToCrs(v, Disruptive, a.disruptive.value));
    var flow :- Try(a.flow, ToCrs(v, Flow));
    var quiet :- Try(a.quiet, ToCrs(v, NonDisruptive));
    Ok(Actions(disruptive, flow, Each(quiet, AsOne), data))
  }

  function AsOne(a: Action): Quiet { One(a) }

  function AsSome<T, E>(r: Result<T, E>): Result<Option<T>, E> {
    match r case Ok(x) => Ok(Some(x)) case Err(e) => Err(e)
  }

  // ----- the chain action

  predicate HasChain(flow: seq<Action>) { exists i :: 0 <= i < |flow| && flow[i].key == CHAIN }

  function WithoutChain(flow: seq<Action>): (r: seq<Action>)
    ensures !HasChain(r)
  {
    if flow == [] then []
    else
      var n := |flow| - 1;
      WithoutChain(flow[..n]) + if flow[n].key == CHAIN then [] else [flow[n]]
  }

  function StripDisruptive(a: Option<ApiActions>): Option<ApiActions> {
    if a.None? then None else Some(a.value.(disruptive := None))
  }

  function EnsureChain(a: Option<ApiActions>): (r: ApiActions)
    ensures HasChain(r.flow)
  {
    var b := if a.None? then Actions(None, [], [], []) else a.value;
    if HasChain(b.flow) then b
    else
      var r := b.(flow := b.flow + [Action(CHAIN, "")]);
      assert r.flow[|b.flow|].key == CHAIN;
      r
  }

  // ----- rules

  datatype Metadata = Metadata(id: int, comment: string, rest: map<string, string>)

  const NO_METADATA := Metadata(0, "", map[])

  /** One rule of crslang without its continuation. */
  datatype Link = Link(meta: Metadata, conditions: seq<Condition>, actions: CrsActions)

  /** One condition of the resource, and its own actions if it has any. */
  datatype Match = Match(condition: Condition, actions: Option<ApiActions>)

  datatype Rule = Rule(meta: Option<Metadata>, matches: seq<Match>, actions: Option<ApiActions>, marker: string)

  function RuleToLink(v: Vocabulary, meta: Option<Metadata>, conditions: seq<Condition>,
                      actions: Option<ApiActions>): Result<Link, Fault>
  {
    var cs :- Try(conditions, c => ConditionToCrs(v, c));
    var a :- if actions.None? then Ok(NO_ACTIONS) else ActionsToCrs(v, actions.value);
    Ok(Link(if meta.None? then NO_METADATA else meta.value, cs, a))
  }

  function LinkMeta(v: Vocabulary, link: Link): Metadata {
    link.meta.(comment := if link.meta.comment == "" then "" else v.tidy(link.meta.comment))
  }
}
