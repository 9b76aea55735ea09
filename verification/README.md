# kubeWAF: a verified model of its core

kubeWAF is a Kubernetes operator that compiles SecRule resources into web application firewall
configurations, publishes them to Envoy, and serves metrics and traces of each WAF. This project
models the parts of it that carry the most logic and proves what they are for. `dafny verify
dfyconfig.toml` verifies all of it.

**PromQL scoping** (`Prom*`). A user may see only the series of the WAFs they have access to, so every
query is rewritten, character by character, before it is sent on. `PromLexer` and `PromScanner` are the
scanner, loop by loop, proved against recursive definitions (`PromScope`). `PromTree` holds queries
as trees with their spelling, `PromScopeTree` scopes trees. The first main result is that the scanner, run on
the printing of a tree, prints the scoped tree or fails with the same error (`PromLexical`; the steps are
in `PromTokens`, `PromMatchers`, `PromIdentity`, `PromSelectors`, `PromSelectStep`, `PromRangeStep`).
The second is what scoped trees mean, over any set of labelled series and any functions, aggregations and
operators of values (`PromMeaning`, `PromQueries`, `PromUnions`); `PromScoping` joins the two into a statement
about text. `PromIsolation` has the promise by itself: a scoped query sees no series of other WAFs.
`PromLiterals` has how PromQL reads the strings the scanner writes, `PromAcceptance` which selectors are accepted.
`PromFragment` says when scoping stays in the fragment, `PromRanges` when it puts no operator on a range
vector, `PromSlice` when a slice of the scanner runs backwards, and `PromLimits` has the inputs on which the
scanner does something else.

**Rule ids** (`Id*`). Ids are handed out from one pool by optimistic updates. `IdPool` is the pool and its
retry loop, `IdRaces` all interleavings of allocators, `IdClaims` and `IdAllocator` the allocation for one SecRule,
`IdBags` the ids within one bag, `IdRuns` all runs of edits, deletions and reconciles.

**Data files** (`FromFile`, `DataFile*`). Directives name data files; names are collected line by line and
directives dropped by whole blobs. `FromFile` is the regular expression and what it finds, said without
it; `DataFiles`, `DataFileScan` and `DataFileResolution` lead to the closure of the result.

**SecRule chains** (`SecRule*`). Matches become linked nodes, legacy bags become chains, crslang chains become
matches again, and the exact condition under which a chain survives the way there and back. `SecRuleSlices`
has the resource as the operator holds it, with slices over shared arrays, and the conversion leaves it as it reads.
`SecRuleActions` says of the fields of a rule which actions, conditions and metadata its links have.

**Serving** (`EcdsStore`, `Rollout`, `FilterInjection`). The string-keyed store of filters as a map per WAF, every run of
leader and replica reconciles, and the injection of filter stubs into listeners.

**Query slots** (`QuerySlots`, `QuerySemaphores`). The semaphores, as a state machine over all interleavings, in
which finding a semaphore and sending on it are two steps as in the code, and as objects.

**References** (`RuleRefs`, `RuleReach`, `RulePolicy`, `RuleCycles`, `WatchIndex`, `RuleWatch`, `AssemblyOrder`). What a
WAF reaches, what the policies on the way permit and when that search ends, which WAFs a RuleSet concerns and how that
fits what they reach, and the order in which rules are assembled.

Where a promised property does not hold of the code, the model keeps the code, shows the input, and
states when it holds:

- a matcher on the identity labels that is empty or repeated is replaced, not honoured
  (`EmptyIdentityIsReplaced`, `RepeatedIdentityIsReplaced`; exactly when it is honoured: `NarrowExact`), and with
  several WAFs one that names some of them is widened to all (`IdentityIsWidened`, exactly when not: `PartsExact`);
- a union after a bare `group_left` is taken for its label list (`GroupLeftTakesTheUnion`, exactly when: `ScopeWf`);
- a selector with a range under a function that the scanner's table lacks, such as `quantile_over_time`, becomes an `or`
  of range vectors (`QuantileOverTimeJoinsRanges`, `UnknownFunctionJoinsRanges`, exactly when: `ScopeOperable`);
- `absent_over_time` does not distribute over an or-union (`AbsentDoesNotDistribute`, exactly when: `AbsenceExact`);
- a parenthesis inside a selector can make a slice run backwards (`ParenInRangePanics`, exactly when: `SliceExact`);
- further arguments of a range call are copied unread (`CallInExtraIsCopied`, exactly when: `ExtraExactly`);
- durations outside brackets are scoped as metrics (`DurationIsScoped`), and what stands between quotes in comments is
  copied unread (`CommentIsCopied`); neither is in the fragment, and on the fragment the scanner does what it is meant
  to (`ScannerComputesScope`);
- after its upper bound was lowered, the pool can grant an id above it (`ShrunkPoolGrantsAboveMax`, exactly when:
  `PickAfterShrink`), ids can repeat after a wrap (`WrapCanRepeat`, not without one: `GrantsOfEveryRun`) and within one
  bag (`BagCanRepeat`, `FreshCanRepeat`, exactly when: `BagDistinctExactly`, and for which bags: `AlwaysDistinctExactly`);
- a legacy chain of three or more entries loses `chain` on its middle links (`LegacyFlags`);
- crslang chains lose some action parameters on the way through the resource (`ParamReadBack`,
  `ThereAndBackExact`);
- a deletion whose snapshot is refused is not published by repeating it, and the WAF stays served until another
  snapshot is accepted (`RefusedDeletionStays`; exactly when a pod serves its store: `ServesStoreExactly`);
- two requests can hold slots of a namespace whose cap is one (`TwoStepsOvershoot`), but only after a semaphore was
  evicted that a request had found and not yet used (`WithinCap`, `RightExactly`);
- on a cycle of references the resolver does not end (exactly when: `EndsExactly`);
- a WAF that uses a RuleSet through two others or through a selector is not notified of its changes
  (`ThreeReferencesMissed`, `SelectorIsMissed`, exactly when: `NotifiedExactly`).

## Model

| member | source | states |
|---|---|---|
| PromScoping.TextOfOneWaf | internal/subresourceapi/promql_scope.go:59-67 | Whatever text scoping a query to one WAF gives is the printing of the scoped query, which is in the fragment, has an operator on a range vector only if the original has, and, with string literals read as PromQL reads them, computes on the whole database what the original computes on that WAF's series |
| PromLiterals.EscapeReadsBack | internal/subresourceapi/promql_scope.go:312-327 | Reading a quoted identity as PromQL reads a double-quoted string gives the identity, for every string |
| PromLiterals.PlainStays | internal/subresourceapi/promql_scope.go:312-327 | An identity without quotes, backslashes and control bytes is written as it is |
| PromScoping.EntryPoints | internal/subresourceapi/promql_scope.go:59-82 | A query of white space and a missing identity are errors, no WAF gives a constant vector, everything else is rewritten for the one identity or the first 256 |
| PromAcceptance.AcceptedExactly | internal/subresourceapi/promql_scope.go:329-369 | A selector is accepted if and only if its matchers on the identity labels are equalities and the last of each label ask for nothing or for one of the WAFs |
| PromScoping.TextOfSeveralWafs | internal/subresourceapi/promql_scope.go:70-82 | For several WAFs, of which the first 256 count, the text is such a printing without an operator on a range vector if and only if the original has none, no selector or range function stands right after a bare `group_left` or `group_right`, and every selector with a range is the argument of a range function of the scanner's table; when those functions work series by series and identity matchers hold of all the WAFs |
| PromScoping.TextSeesOnlyItsWafs | internal/subresourceapi/promql_scope.go:70-82 | Whatever the query of the fragment, the scoped text prints a tree that computes the same on the whole database as on the series of the WAFs; that tree is in the fragment if and only if there is one WAF or no union follows a bare `group_left` or `group_right` |
| PromIsolation.SeesOnlyItsWafs | internal/subresourceapi/promql_scope.go:286-310 | Every scoped tree evaluates on all series to what it evaluates to on the series of the WAFs alone, with no condition on the query |
| PromFragment.ScopeWf | internal/subresourceapi/promql_scope.go:275-284 | A scoped tree is in the fragment, by its spelling, if and only if there is one WAF or no selector or range function follows a bare `group_left` or `group_right` |
| PromRanges.ScopeOperable | internal/subresourceapi/promql_scope.go:233-310 | A scoped tree has no operator on a range vector if and only if the original has none and there is one WAF or every selector with a range is the argument of a range function of the table |
| PromRanges.ScopeSendable | internal/subresourceapi/promql_scope.go:233-310 | Both conditions together decide whether the scoped tree is in the fragment without an operator on a range vector |
| PromScoping.ScopeToWaf | internal/subresourceapi/promql_scope.go:59-67 | Blank query and missing identity are errors; otherwise the query is rewritten for the one identity |
| PromScoping.ScopeToWafs | internal/subresourceapi/promql_scope.go:70-82 | Blank query is an error, no WAF gives a constant zero vector, and at most 256 WAFs are used |
| PromLexical.ScannerComputesScope | internal/subresourceapi/promql_scope.go:84-284 | On the printing of every query tree of the fragment the scanner prints the tree with every selector scoped and range functions distributed over the union, or fails with the error of scoping the tree |
| PromQueries.ScopedQueryOfOneWaf | internal/subresourceapi/promql_scope.go:84-178 | A tree scoped to one WAF evaluates on all series to what the original evaluates to on that WAF's series |
| PromUnions.ScopedQueryOfSeveralWafs | internal/subresourceapi/promql_scope.go:275-310 | A tree scoped to several WAFs evaluates on all series to what the original evaluates to on the series of those WAFs, if its identity matchers hold of all of them and selectors with a range stand under range functions |
| PromUnions.PartsExact | internal/subresourceapi/promql_scope.go:286-385 | The selectors narrowed to each WAF together pick exactly the original's series of the WAFs if and only if the identity matchers hold of every series of a WAF that the other matchers pick |
| PromUnions.PartsTogether | internal/subresourceapi/promql_scope.go:286-310 | They do so when the identity matchers are each WAF's own |
| PromUnions.EvalUnion | internal/subresourceapi/promql_scope.go:275-284 | The or-union of per-WAF vectors is their union |
| PromUnions.RangeFnSeveral | internal/subresourceapi/promql_scope.go:233-273 | A range function distributed over the per-WAF selectors computes what it computes on the series of all of them |
| PromUnions.AbsenceExact | internal/subresourceapi/promql_scope.go:233-273 | For every database and list of WAFs, the distributed absence function agrees with the original if and only if every WAF has a picked series or none has |
| PromUnions.AbsentDoesNotDistribute | internal/subresourceapi/promql_scope.go:233-273 | So with series of one of two WAFs it reports a gap where the original reports none |
| PromMeaning.NarrowExact | internal/subresourceapi/promql_scope.go:312-385 | For every series: an accepted selector narrowed to a WAF agrees with picking the original's series of that WAF if and only if every identity matcher it gave was the WAF's own or it does not pick the series at all |
| PromMeaning.OnceIsOwn | internal/subresourceapi/promql_scope.go:329-369 | An accepted selector that gives each identity label at most once, not empty and read as written, asks for its own WAF only |
| PromLimits.DurationIsScoped | internal/subresourceapi/promql_scope.go:112-178 | A duration outside brackets is taken for a number followed by a metric, which is scoped |
| PromLimits.WordsKnown | internal/subresourceapi/promql_scope.go:32-53 | The aggregations, reserved words, range functions and grouping words the scanner knows, in any case, and no others |
| PromLimits.AggregationsWf | internal/subresourceapi/promql_scope.go:153-170 | Every aggregation of PromQL with a label list is in the fragment |
| PromLimits.CharClasses | internal/subresourceapi/promql_scope.go:624-637 | Which ASCII characters start and continue names, are blank and are quotes |
| PromSlice.SliceExact | internal/subresourceapi/promql_scope.go:233-273 | A range call slices backwards if and only if its selector is read and accepted and some prefix of its text, quotes skipped, closes the parenthesis of the call |
| PromSlice.ParenInRangeExact | internal/subresourceapi/promql_scope.go:233-273 | For a metric with a range free of quotes and brackets: if and only if some prefix of the range closes one parenthesis more than it opens |
| PromSlice.ParenInBracesExact | internal/subresourceapi/promql_scope.go:233-273 | The same for accepted braces free of quotes and braces |
| PromSlice.ParenInRangePanics | internal/subresourceapi/promql_scope.go:233-273 | So a range that closes a parenthesis it does not open makes the scanner fail there |
| PromLimits.UnknownFunctionJoinsRanges | internal/subresourceapi/promql_scope.go:43-53 | For every function outside the table a well-formed call on a range is rewritten for several WAFs to an `or` of range vectors |
| PromLimits.QuantileOverTimeJoinsRanges | internal/subresourceapi/promql_scope.go:46-53 | `quantile_over_time` is one |
| PromLimits.GroupLeftTakesTheUnion | internal/subresourceapi/promql_scope.go:275-284 | A well-formed join with a bare `group_left` is rewritten for several WAFs to a text outside the fragment |
| PromLimits.IdentityIsWidened | internal/subresourceapi/promql_scope.go:286-385 | Over two WAFs a matcher naming one is accepted and dropped, so series of the other are picked |
| PromLimits.CommentIsCopied | internal/subresourceapi/promql_scope.go:89-111 | Text between two quotes is copied unread, even when a `#` before each makes the quotes comments |
| PromSlice.ExtraExactly | internal/subresourceapi/promql_scope.go:255-273 | For every closed call whose selector is accepted, what follows the selector is copied into one call per WAF if and only if it holds no brace |
| PromSlice.ExtraStep | internal/subresourceapi/promql_scope.go:123-145 | The scanner then goes on after the call, and otherwise writes the function's name and goes on inside its parenthesis |
| PromLimits.ExtraIsCopied | internal/subresourceapi/promql_scope.go:255-273 | The same for a metric with a range, with the calls written out |
| PromLimits.CallInExtraIsCopied | internal/subresourceapi/promql_scope.go:255-273 | So a further call there is not scoped |
| PromLimits.EmptyIdentityIsReplaced | internal/subresourceapi/promql_scope.go:329-369 | A matcher for the empty namespace is accepted and replaced, so the scoped selector picks series the original does not |
| PromLimits.RepeatedIdentityIsReplaced | internal/subresourceapi/promql_scope.go:345-369 | Of two matchers on one identity label only the last is checked, and both are replaced |
| PromScanner.RewritePromQL | internal/subresourceapi/promql_scope.go:84-178 | The loop over the query gives the result, or the first error, of rewriting it step by step |
| PromScanner.ScanStep | internal/subresourceapi/promql_scope.go:89-178 | One turn of the loop: what it writes and where it goes on, for every kind of character |
| PromScanner.ScanName | internal/subresourceapi/promql_scope.go:123-170 | What a name turns into: keyword, function, aggregation, range call or metric |
| PromScanner.RewriteRangeFuncCall | internal/subresourceapi/promql_scope.go:233-273 | A range function applied to a selector becomes one call per WAF; anything else is left to the caller |
| PromScanner.BracedRangeCall | internal/subresourceapi/promql_scope.go:243-273 | The same when the selector has braces |
| PromScanner.FinishRangeCall | internal/subresourceapi/promql_scope.go:255-273 | The calls and their extra arguments, and where the call ends |
| PromScanner.RewriteSelectorAt | internal/subresourceapi/promql_scope.go:217-224 | A braced selector becomes its union, or its brace is never closed |
| PromScanner.EmitScopedSelectors | internal/subresourceapi/promql_scope.go:275-284 | One narrowed selector per WAF, joined by `or` and put in parentheses when there are several |
| PromScanner.ScopedSelectorParts | internal/subresourceapi/promql_scope.go:286-310 | The narrowed selectors with their range, after foreign identities are refused |
| PromScanner.ExtractIdentityMatchers | internal/subresourceapi/promql_scope.go:345-369 | The identity a matcher list asks for, or the error for a matcher that is not an equality |
| PromScanner.RejectForeignIdentity | internal/subresourceapi/promql_scope.go:329-343 | An identity that is asked for and not allowed is refused |
| PromScanner.StripIdentityMatchers | internal/subresourceapi/promql_scope.go:371-385 | The matchers on other labels, in order |
| PromScanner.SplitMatchers | internal/subresourceapi/promql_scope.go:387-430 | Matchers split at commas outside quotes, trimmed; an empty one is dropped at the end only |
| PromScanner.IsAggModifier | internal/subresourceapi/promql_scope.go:188-202 | Whether `by` or `without` follows |
| PromScanner.SkipGroupingList | internal/subresourceapi/promql_scope.go:204-215 | How much of a grouping list is copied |
| PromLexer.SkipGroup | internal/subresourceapi/promql_scope.go:453-551 | The end of a bracket, brace or parenthesis, counting nesting and skipping quotes |
| PromLexer.SkipQuoted | internal/subresourceapi/promql_scope.go:591-606 | The end of a quoted string with escapes, or that it is not closed |
| PromLexer.SkipNumber | internal/subresourceapi/promql_scope.go:566-589 | The end of a number with fraction and exponent |
| PromLexer.ReadIdent | internal/subresourceapi/promql_scope.go:608-622 | The longest identifier |
| IdPool.FindFree | internal/controller/seclang/id_pool.go:268-278 | The least id of the interval that is not used, if there is one |
| IdPool.PickExact | internal/controller/seclang/id_pool.go:225-266 | With a cursor within bounds the granted id is unused and within bounds, the next cursor is within bounds, and exhaustion is reported exactly when every id is used |
| IdPool.PickIsNext | internal/controller/seclang/id_pool.go:225-266 | The granted id is the least free one from the cursor on, or else the least free of all |
| IdPool.AdvanceIs | internal/controller/seclang/id_pool.go:225-266 | The cursor moves past the granted id, or to the minimum after the maximum, and the bounds are the set or the default ones |
| IdPool.PickAfterShrink | internal/controller/seclang/id_pool.go:225-266 | For any cursor, a granted id is within bounds if and only if the search starts at most one past the upper bound or some id within bounds is free |
| IdPool.ShrunkPoolGrantsAboveMax | internal/controller/seclang/id_pool.go:225-266 | A pool whose bound was lowered below its cursor grants an id above the bound |
| IdPool.AttemptsAtomic | internal/controller/seclang/id_pool.go:225-266 | Whatever other writers do between attempts, the outcome is that of one attempt on the pool as it was then, every attempt before it having found an id and lost it; giving up means that all were lost |
| IdPool.PoolStore.constructor | internal/controller/seclang/id_pool.go:33-72 | The pool that exists, else one with the default bounds whose first search starts at the lower one, even if its first status update fails |
| IdPool.PoolStore.UpdateStatus | internal/controller/seclang/id_pool.go:225-266 | A status update succeeds exactly when the version is current |
| IdPool.PoolStore.AllocateOne | internal/controller/seclang/id_pool.go:225-266 | The retry loop gives the result and leaves the pool of the attempts one after the other, at most 32 |
| IdRaces.GrantsOfEveryRun | internal/controller/seclang/id_pool.go:225-266 | Over every interleaving of allocators with stale used sets, grants increase between wraps, grants without a wrap between them differ, every grant is within bounds and was unused, and the counter equals the number of grants |
| IdRaces.WrapCanRepeat | internal/controller/seclang/id_pool.go:225-266 | A run in which an id is granted again after a wrap |
| IdClaims.AllocateAvoids | internal/controller/seclang/id_pool.go:131-187 | No id given to a SecRule is claimed by another |
| IdClaims.PrimaryAndSource | internal/controller/seclang/id_pool.go:131-187 | The primary id is the first of the ids; the source is the spec if every entry has an id there, the controller if none has, both otherwise |
| IdClaims.ClaimsAre | internal/controller/seclang/id_pool.go:75-107 | The ids in use are the positive ones in metadata, bags, statuses and annotations |
| IdAllocator.Allocator.constructor | internal/controller/seclang/id_pool.go:75-107 | An allocation starts with no used id |
| IdAllocator.Allocator.CollectUsedIDs | internal/controller/seclang/id_pool.go:75-107 | The used set is exactly the positive ids in specs, statuses and annotations of all rules |
| IdAllocator.Allocator.FreeSelfClaims | internal/controller/seclang/id_pool.go:110-125 | The ids the rule holds in its status, as primary id and in its annotation leave the used set |
| IdAllocator.Allocator.ResolveOneID | internal/controller/seclang/id_pool.go:190-223 | One id from spec, status, annotation or pool, and what becomes used |
| IdAllocator.Allocator.AllocateIDs | internal/controller/seclang/id_pool.go:131-187 | The ids of a whole SecRule, single or bag, with primary id and source, or the failure |
| IdRuns.ClaimsStayDisjoint | internal/controller/seclang/id_pool.go:75-223 | Over every run of edits, deletions and reconciles, cut short anywhere, ids claimed by different SecRules stay disjoint if no edit claims another's id |
| IdRuns.IdsStay | internal/controller/seclang/id_pool.go:131-223 | Once the status is written, reconciling again gives the same ids and takes none from the pool, whatever has happened to the pool and to other rules |
| IdRuns.AnnotationIs | internal/controller/seclang/labels_sync.go:60-71 | The annotation is the first id if the controller gave one of them, and else stays |
| IdBags.BagDistinctExactly | internal/controller/seclang/id_pool.go:131-223 | For every bag, used set and pool, the ids given are pairwise different if and only if the fixed ones are and no fresh one is an id freed by the rule that a later entry is fixed to |
| IdBags.AlwaysDistinctExactly | internal/controller/seclang/id_pool.go:110-223 | The ids of a bag are different whatever is in use and whatever the pool if and only if the fixed ones are and no entry after a fresh one is fixed to an id the rule holds |
| IdBags.HeldIdsOnly | internal/controller/seclang/id_pool.go:110-223 | In a reconcile the freed ids are those the rule holds, so that condition is enough |
| IdBags.BagCanRepeat | internal/controller/seclang/id_pool.go:131-187 | An entry whose sticky id the spec gives to another: both get it |
| IdBags.FreshCanRepeat | internal/controller/seclang/id_pool.go:131-223 | A freed id is picked for one entry and then taken by a later one |
| FromFile.TokensExact | internal/dataplane/config/phrasefiles.go:80-80 | The regular expression finds exactly the runs an operator refers to |
| FromFile.OperatorsAre | internal/dataplane/config/phrasefiles.go:80-80 | The four operators, in any case, followed by white space |
| FromFile.CharClasses | internal/dataplane/config/phrasefiles.go:80-80 | Which ASCII characters separate, quote and make up file tokens |
| FromFile.TokensWithin | internal/dataplane/config/phrasefiles.go:84-117 | A piece of a text followed by white space refers to nothing the text does not refer to |
| DataFiles.LinesWithinBlob | internal/dataplane/config/phrasefiles.go:84-148 | Reading a directive line by line without comments names only what reading it whole names |
| DataFiles.NamesExact | internal/dataplane/config/phrasefiles.go:84-117 | The names of the directives are exactly those an operator in a line that is no comment refers to |
| DataFiles.FileNameIs | internal/dataplane/config/phrasefiles.go:103-107 | The name of a file is what follows the last slash of its path |
| DataFiles.LessMeans | internal/dataplane/config/phrasefiles.go:116-116 | Byte order decides at the first difference, and a prefix comes first |
| DataFiles.KeptNames | internal/dataplane/config/phrasefiles.go:121-148 | After dropping names the kept directives name none of them and nothing new |
| DataFileScan.ScanBasenames | internal/dataplane/config/phrasefiles.go:84-117 | The names of all code lines, each once, in byte order |
| DataFileScan.References | internal/dataplane/config/phrasefiles.go:135-148 | Whether the whole directive refers to one of the names |
| DataFileScan.DropReferences | internal/dataplane/config/phrasefiles.go:121-133 | The directives that refer to none of the names, unchanged and in order |
| DataFileResolution.DiscoverAndResolve | internal/dataplane/config/phrasefiles.go:190-356 | Failure of the reference checks, else of the first broken name, else of the first missing one unless the policy ignores it, else of the size; otherwise every found body, the missing names, the size and the kept directives |
| DataFileResolution.FindAll | internal/dataplane/config/phrasefiles.go:242-313 | Bodies and missing names of all names in order, or the first that is broken |
| DataFileResolution.RawBytes | internal/dataplane/config/phrasefiles.go:336-340 | The sum of the sizes of the bodies |
| DataFileResolution.PublishClosed | internal/dataplane/config/phrasefiles.go:190-356 | On success every name in the resulting directives has a body, no dropped name is left, the size is the sum of the bodies and at most 2 MiB, and nothing is dropped without a missing name |
| DataFileResolution.PublishBodies | internal/dataplane/config/phrasefiles.go:242-313 | Every name has the body of a ready stock or allowed list, else the embedded one, or, if it is no stock name, that of a PhraseList, else of an IPList; only names nobody has are dropped, under the policy that allows it; at most 2 MiB |
| DataFileResolution.ResolveDataFiles | internal/probeassemble/datafiles.go:284-355 | Given bodies first, then the provider; the first name that stops, or all bodies with the given ones added, within the limit |
| DataFileResolution.LookUpAll | internal/probeassemble/datafiles.go:300-329 | Bodies, dropped names and running size of all names in order, or the first that stops |
| DataFileResolution.AddOverrides | internal/probeassemble/datafiles.go:331-336 | Given bodies that no directive names are added and counted once |
| DataFileResolution.ProbeClosed | internal/probeassemble/datafiles.go:284-355 | The same closure for probes |
| DataFileResolution.ProbeBodies | internal/probeassemble/datafiles.go:284-355 | Given bodies win, every other body is one the provider calls ready, and only names without one are dropped |
| SecRuleChains.MatchesGiveChain | api/seclang/v1beta1/convert/secrule.go:78-137 | Two or more matches give a chain of that length, one condition each, `chain` on all links but the last, metadata and disruptive action on the head only |
| SecRuleActions.LinksInherit | api/seclang/v1beta1/convert/secrule.go:78-126 | Each link has its match's condition and exactly the actions of that match; without its own the head has the rule's, the last link the rule's but the disruptive one, a middle link none but `chain`; the disruptive action and the rule's metadata stand on the head only |
| SecRuleActions.EmptyRule | api/seclang/v1beta1/convert/secrule.go:51-55 | A rule without matches always matches and has the rule's own actions |
| SecRuleActions.OnlyChainGoes | api/seclang/v1beta1/convert/secrule.go:423-434 | Taking `chain` out leaves every other flow action in place |
| SecRuleActions.EntryCarries | api/seclang/v1beta1/convert/secrule.go:345-420 | A link of a legacy bag has the entry's own metadata, conditions and actions |
| SecRuleActions.MatchesOfChain | api/seclang/v1beta1/convert/secrule.go:509-582 | A rule without continuation becomes one match per condition; in a chain each link becomes one match of its first condition, with actions of its own on all but the head |
| SecRuleActions.ConditionOut | api/seclang/v1beta1/convert/secrule.go:353-398 | What becomes of known, unknown and unset names, and that everything else of a condition is kept |
| SecRuleActions.TransformationOut | api/seclang/v1beta1/convert/secrule.go:353-398 | Which transformations are kept, respelled or refused |
| SecRuleActions.ActionOut | api/seclang/v1beta1/convert/actions.go:111-163 | An action keeps its parameter and its key, if its kind has it |
| SecRuleActions.DisruptiveKeys | api/seclang/v1beta1/secrule_actions.go:118-191 | The disruptive actions, and that only `redirect` keeps its parameter |
| SecRuleActions.FlowKeys | api/seclang/v1beta1/convert/actions.go:34-109 | The flow actions and which keep their parameter |
| SecRuleActions.DataKeys | api/seclang/v1beta1/convert/actions.go:34-109 | The data actions, which keep their parameter |
| SecRuleActions.QuietKeys | api/seclang/v1beta1/convert/actions.go:34-109 | The non-disruptive actions and which keep their parameter |
| SecRuleChains.ConvertSingleRule | api/seclang/v1beta1/convert/secrule.go:50-137 | Fresh linked nodes hold the links of the rule, followed by its marker, or the failure of the first link that fails; every match and the rule's own actions read the same afterwards |
| SecRuleChains.BuildChain | api/seclang/v1beta1/convert/secrule.go:78-126 | The nodes of the chain, each pointing at the next, and the rule reads the same after the whole loop |
| SecRuleChains.NodeAt | api/seclang/v1beta1/convert/secrule.go:81-123 | One link: which actions it inherits, `chain` ensured or removed, disruptive action removed from children; the rule reads the same |
| SecRuleChains.TakeActions | api/seclang/v1beta1/convert/secrule.go:84-104 | The actions a link starts from, copied and stripped where they must be |
| SecRuleChains.EnsureChainOn | api/seclang/v1beta1/convert/secrule.go:245-275 | Adding `chain` to derived actions writes to no element that any match or the rule shows |
| SecRuleChains.Attach | api/seclang/v1beta1/convert/secrule.go:124-125 | Pointing the last node at a new one extends the chain by it |
| SecRuleChains.RemoveChain | api/seclang/v1beta1/convert/secrule.go:423-434 | Every `chain` leaves the flow actions, nothing else changes |
| SecRuleSlices.EnsureChainAction | api/seclang/v1beta1/convert/secrule.go:302-324 | The actions with `chain` present; at most the array of an empty flow slice is written to, and the actions read the same |
| SecRuleSlices.StripDisruptiveActions | api/seclang/v1beta1/convert/secrule.go:283-299 | The actions without the disruptive one, in arrays of their own unless empty, nothing of the resource written |
| SecRuleSlices.HasChainInActions | api/seclang/v1beta1/convert/secrule.go:326-336 | Whether a flow action is `chain` |
| SecRuleSlices.CopyIfAny | api/seclang/v1beta1/convert/secrule.go:289-297 | A slice with elements is copied into a new array, an empty one is passed on |
| SecRuleChains.Node.constructor | api/seclang/v1beta1/convert/secrule.go:338-343 | A node holds its link and no continuation |
| SecRuleBags.ConvertBag | api/seclang/v1beta1/convert/secrule.go:178-244 | The directives show the chains and markers of all runs in order, then the marker of the resource; beside a failure come those of the runs before the one that fails |
| SecRuleBags.BuildRun | api/seclang/v1beta1/convert/secrule.go:192-220 | The chain of the run that starts at an entry, and where the run ends |
| SecRuleBags.EmitsEveryEntry | api/seclang/v1beta1/convert/secrule.go:178-244 | The links of all chains together are those of the entries, in order, none twice and none left out |
| SecRuleBags.CutsExact | api/seclang/v1beta1/convert/secrule.go:178-244 | Chains start exactly at the first entry and after every entry without `chain` |
| SecRuleBags.MarkersPlaced | api/seclang/v1beta1/convert/secrule.go:221-240 | Each chain is followed by the marker of its last entry, or else of its first, and there are no other markers |
| SecRuleBags.LegacyFlags | api/seclang/v1beta1/convert/secrule.go:192-220 | A run has `chain` exactly where it continues if and only if it is one entry without it or two entries |
| SecRuleRoundTrip.ConvertToSingleForm | api/seclang/v1beta1/convert/secrule.go:509-582 | Walking the nodes gives the resource of the chain with the 32-bit order of its id, or the failure of the first link that fails |
| SecRuleFidelity.ConditionBackExact | api/seclang/v1beta1/convert/secrule.go:353-398 | A condition comes back, with British spelling, if and only if its names are known and an always-matching one has no operator |
| SecRuleFidelity.ParamReadBack | api/seclang/v1beta1/convert/actions.go:34-109 | A parameter is read back if and only if there is none and none is looked for, or it is kept and neither starts nor ends with a tick |
| SecRuleFidelity.ActionBack | api/seclang/v1beta1/convert/actions.go:111-163 | An action comes back if and only if its key is known, crslang accepts it and its parameter is read back |
| SecRuleFidelity.FlowBack | api/seclang/v1beta1/convert/secrule.go:302-336 | Flow actions come back up to the place of `chain` if and only if each survives, and `chain` is there exactly when the link continues |
| SecRuleFidelity.QuietBack | api/seclang/v1beta1/convert/actions.go:65-94 | Non-disruptive actions come back, one per assignment, if and only if each survives |
| SecRuleReturn.RulesComeBack | api/seclang/v1beta1/convert/secrule.go:50-137 | A crslang chain turned into a resource and back has the same conditions, actions and `chain` flags if and only if each link has one condition, known names, kept parameters, and disruptive action and `chain` in their places; if it comes back at all, conditions and flags are the same if and only if theirs are such |
| SecRuleReturn.MetaComesBack | api/seclang/v1beta1/convert/secrule.go:436-450 | Whatever comes back has the head's metadata, its comment cleaned up, on the head and none elsewhere |
| SecRuleReturn.ThereAndBackExact | api/seclang/v1beta1/convert/secrule.go:50-137 | It is the same chain with its metadata if and only if, besides, only the head has metadata and its comment is one the clean-up leaves alone |
| SecRuleReturn.FiresTheSame | api/seclang/v1beta1/convert/secrule.go:509-582 | A chain that comes back and whose conditions and `chain` flags are such fires on the same requests, followed from link to link where `chain` says so, whatever its metadata and other actions, for every engine that takes the two spellings for the same |
| SecRuleReturn.FaithfulFires | api/seclang/v1beta1/convert/secrule.go:509-582 | A chain that comes back as a whole does |
| EcdsStore.ExtUnder | internal/dataplane/config/build.go:695-697 | The name of one WAF lies under the name of another only if they are the same |
| EcdsStore.NamesInEnvoy | internal/dataplane/config/build.go:695-702 | The names of a WAF's filters as Envoy is told them |
| EcdsStore.ChallengeUnder | internal/dataplane/config/build.go:700-702 | The challenge name of one WAF lies under the name of another only if they are the same, and no challenge name is an engine name |
| EcdsStore.ApplyRefines | internal/dataplane/ecds/server.go:88-133 | Each operation on the string-keyed store is the operation on one entry of a map from WAFs to filters |
| EcdsStore.RefinesOnto | internal/dataplane/ecds/server.go:88-133 | The store determines that map |
| EcdsStore.RunMapHolds | internal/dataplane/ecds/server.go:88-133 | What is held for a WAF is decided by the last operation on it alone |
| EcdsStore.ReplicasConverge | internal/dataplane/ecds/server.go:88-133 | Equal last operations per WAF give equal stores, whatever the interleaving |
| EcdsStore.Server.constructor | internal/dataplane/ecds/server.go:74-85 | An empty store, published as version one |
| EcdsStore.Server.Publish | internal/dataplane/ecds/server.go:148-169 | The version grows by one and the snapshot is served unless the cache refuses it |
| EcdsStore.Server.RemoveUnder | internal/dataplane/ecds/server.go:97-103 | Exactly the names under the extension are removed, and counted |
| EcdsStore.Server.Upsert | internal/dataplane/ecds/server.go:88-112 | A filter that cannot be built changes nothing; otherwise the WAF's filters are replaced and published |
| EcdsStore.Server.Delete | internal/dataplane/ecds/server.go:115-133 | The WAF's filters are removed, and published only when there were any |
| Rollout.BuildWaf | internal/dataplane/pipeline/pipeline.go:79-187 | Which inputs give a configuration and which failure comes first, with the data files resolved |
| Rollout.PublishBuild | internal/dataplane/pipeline/pipeline.go:191-209 | Publishing performs the replacement on the pod's store |
| Rollout.DropLocal | internal/dataplane/pipeline/pipeline.go:236-244 | Dropping performs the removal on the pod's store |
| Rollout.ReconcileSync | internal/dataplane/sync/controller.go:64-102 | A ready WAF is stored with exactly its filters and, if the cache takes the snapshot, served; a WAF that is gone or deleting is not stored and, if there was something to remove, not served; in every other case nothing changes |
| Rollout.ReconcileLead | internal/controller/waf/waf_controller.go:100-174 | The same of the leader, which returns early after adding its finalizer or on a failing status update, and does nothing for a WAF that is gone |
| Rollout.ServesLastGood | internal/dataplane/pipeline/pipeline.go:79-244 | After every run, what is served for a WAF was built from an observed state without reference errors whose directives name only published data files, and no reconcile from then to the last accepted snapshot came to an operation on it; it is absent only if there was none or the last was a deletion |
| Rollout.LastReadyIsServed | internal/dataplane/pipeline/pipeline.go:79-244 | What the last event before the last accepted snapshot that stored or dropped a WAF left is what is served for it, and every ready event whose snapshot is taken comes before one |
| Rollout.ServedIs | internal/dataplane/ecds/server.go:148-169 | What is served is version and store as they were at the last snapshot the cache accepted; every one since was refused |
| Rollout.ServesStoreExactly | internal/dataplane/ecds/server.go:148-169 | A pod serves its store if and only if no WAF was left anything new since the last accepted snapshot, in particular if the last snapshot was accepted |
| Rollout.VersionsGrow | internal/dataplane/ecds/server.go:148-169 | The version grows with every change, and a new snapshot has a version no earlier one had |
| Rollout.PodsServeTheSame | internal/dataplane/sync/controller.go:64-102 | Two pods serve the same if and only if their reconciles had left the same for every WAF by the last snapshot each accepted |
| Rollout.PodsConverge | internal/dataplane/sync/controller.go:64-102 | Pods whose last snapshots were accepted serve the same if and only if their reconciles left the same for every WAF, whatever was refused before |
| Rollout.RefusedDeletionStays | internal/dataplane/ecds/server.go:115-133 | After a deletion whose snapshot was refused, deleting again publishes nothing, and the WAF is still served if and only if it was before and no snapshot was accepted since |
| QuerySlots.RunGlobal | internal/subresourceapi/query.go:307-336 | Over every interleaving the global semaphore is as full as there are requests inside, never beyond its cap, and the map never exceeds its limit |
| QuerySlots.RoomAdmits | internal/subresourceapi/server.go:677-709 | A request that finds room in both semaphores, or room or an idle entry in the map, gets its slots |
| QuerySlots.FullRefuses | internal/subresourceapi/query.go:307-321 | A request that finds the global semaphore full stays outside |
| QuerySlots.RightExactly | internal/subresourceapi/server.go:677-717 | With finding and sending as two steps, the semaphores are right at every point of a run if and only if none is evicted that a request has found and not yet sent on |
| QuerySlots.RunRight | internal/subresourceapi/server.go:677-717 | After a run without such an eviction each semaphore is as full as it has holders, within its cap, and every request's semaphore is still in the map |
| QuerySlots.WithinCap | internal/subresourceapi/server.go:677-717 | A namespace has more requests under way than its cap only after such an eviction |
| QuerySlots.FewNamespaces | internal/subresourceapi/server.go:677-701 | There is none while no more namespaces are asked for than the map may have entries |
| QuerySlots.OneStepUndisturbed | internal/subresourceapi/server.go:677-709 | Nor would there be one if finding and sending were one step |
| QuerySlots.DrainsItsOwn | internal/subresourceapi/query.go:323-336 | Without such an eviction, giving a slot back drains the semaphore it was taken from |
| QuerySlots.TwoStepsOvershoot | internal/subresourceapi/server.go:677-709 | A run in which two requests hold slots of a namespace whose cap is one |
| QuerySemaphores.Server.constructor | internal/subresourceapi/server.go:153-200 | No slot is out |
| QuerySemaphores.Server.Evict | internal/subresourceapi/server.go:681-691 | A full map loses an idle entry if there is one, never an entry with slots out |
| QuerySemaphores.Server.Find | internal/subresourceapi/server.go:677-701 | The semaphore of the namespace, made if there is room or an idle entry to evict |
| QuerySemaphores.Server.AcquireNamed | internal/subresourceapi/server.go:677-709 | A slot is given exactly when there is room, and no semaphore with slots out is evicted |
| QuerySemaphores.Server.AcquireQuerySlot | internal/subresourceapi/query.go:307-321 | A slot is given exactly when the global cap and the namespace have room, which is for the configured number of slots, or for one; on refusal nothing stays taken |
| QuerySemaphores.Server.ReleaseQuerySlot | internal/subresourceapi/query.go:323-336 | The slot is given back to both semaphores |
| RuleRefs.ReconcileRefs | internal/references2/resolver.go:45-109 | The nested loops and the recursion give the objects, errors and stop of the walk, whenever the RuleSets in reach have no cycle |
| RuleRefs.ResolveOne | internal/references2/resolver.go:71-103 | One found object: refused, not locked, a leaf, or a RuleSet after everything it leads to |
| RuleReach.CollectsReachable | internal/references2/resolver.go:45-109 | Unless it stops, a resolution collects exactly the objects at the end of paths of references each owner allows |
| RulePolicy.CollectsLawfully | internal/references2/resolver.go:252-290 | Everything collected is at the end of a path on which every RuleSet stays in its namespace, takes rules from all, or has a selector that matches the other; unless the resolution stops, all of that is collected |
| RulePolicy.RefusedIsReported | internal/references2/resolver.go:261-275 | What a RuleSet in reach refers to in another namespace, with no policy, `Same` or an empty one, is not taken and is reported as not allowed |
| RulePolicy.LookupReported | internal/references2/resolver.go:66-72 | A reference that cannot be looked up is reported as such |
| RulePolicy.LockReported | internal/references2/resolver.go:78-86 | An object whose lock fails is reported as such and not collected there |
| RuleRefs.DefaultsAre | internal/references2/resolver.go:113-137 | A reference keeps what it says; an open namespace is the owner's, an open kind is RuleSet, and group and version follow the kind |
| RuleRefs.LookUpIs | internal/references2/resolver.go:139-153 | A selector lists, a name alone gets one object, neither finds nothing |
| RuleReach.ErrorsExact | internal/references2/resolver.go:45-109 | Unless it stops, it reports errors exactly when the owner or a reached RuleSet has a reference that cannot be looked up or finds an object that is not allowed |
| RuleReach.StopsExactly | internal/references2/resolver.go:89-98 | It stops exactly when it reaches a RuleSet it cannot read |
| RuleReach.WalkOrdered | internal/references2/resolver.go:89-103 | Every RuleSet follows everything it leads to |
| RuleReach.NoWayBack | internal/references2/resolver.go:89-101 | RuleSets that can be ranked, as the resolution demands, never lead back to themselves |
| RuleCycles.EndsExactly | internal/references2/resolver.go:45-109 | In a finite cluster the recursion that follows every reference ends, and the resolution can be ranked, if and only if no RuleSet the owner reaches leads back to itself |
| RuleReach.LockSame | internal/references2/resolver.go:27-43 | The locking and the read-only form agree on objects, errors and stops when locks fail only by conflict |
| FilterInjection.InjectShape | internal/dataplane/extensionserver/server.go:430-505 | The original filters stay in order, new stubs stand together ahead of every router, have exactly the missing names, each once |
| FilterInjection.InjectedMeans | internal/dataplane/extensionserver/server.go:440-490 | Every filter of every WAF is there, ahead of every filter whose name ends in `router`, pointing at its WAF's cluster if it was not there before, and one managed access log if a WAF asks for it and there is none |
| FilterInjection.ChainMeans | internal/dataplane/extensionserver/server.go:430-505 | The first connection manager of a chain gets them, and nothing else changes |
| FilterInjection.InjectIdempotent | internal/dataplane/extensionserver/server.go:430-505 | Injecting again changes nothing |
| FilterInjection.ChallengeFirst | internal/dataplane/config/build.go:236-257 | On a listener with none of a WAF's stubs its challenge is placed before its engine |
| FilterInjection.NewStubs | internal/dataplane/extensionserver/server.go:442-457 | The stubs whose name is neither there nor already to be added, in order |
| FilterInjection.InsertBeforeRouter | internal/dataplane/extensionserver/server.go:471-485 | The new stubs stand before the first router, or at the end |
| FilterInjection.InjectManager | internal/dataplane/extensionserver/server.go:440-490 | A connection manager with stubs and, for managed telemetry, one access log |
| FilterInjection.InjectIntoFilterChain | internal/dataplane/extensionserver/server.go:430-505 | Only the first connection manager of a chain changes |
| FilterInjection.InjectFilters | internal/dataplane/extensionserver/server.go:415-428 | Every chain of a listener, even one held twice, gets the filters once |
| WatchIndex.RuleRefIndexKeys | internal/dataplane/index/waf_watch.go:40-59 | The keys of the references by name, in order |
| WatchIndex.KeysExact | internal/dataplane/index/waf_watch.go:40-77 | The key of a RuleSet is among them if and only if a reference names the RuleSet |
| WatchIndex.CollectWafs | internal/dataplane/index/waf_watch.go:160-196 | With the index or by scanning, exactly the WAFs that name the RuleSet are added |
| WatchIndex.MapRuleSetToWafs | internal/dataplane/index/waf_watch.go:142-158 | Exactly the WAFs within one or two named references, or within one when RuleSets are not indexed |
| WatchIndex.ThreeReferencesMissed | internal/dataplane/index/waf_watch.go:142-158 | A WAF three references away is not among them |
| RuleWatch.NamedIsNotified | internal/dataplane/index/waf_watch.go:142-196 | A WAF that the resolver leads to the RuleSet by at most two references by name is notified |
| RuleWatch.NotifiedExactly | internal/dataplane/index/waf_watch.go:142-196 | Where named references lead to what they name, it is notified if and only if there is such a path |
| RuleWatch.NamedReaches | internal/references2/resolver.go:45-109 | Such a path is one the resolver follows |
| RuleWatch.SelectorIsMissed | internal/dataplane/index/waf_watch.go:42-46 | A WAF that reaches the RuleSet through selectors alone is not notified |
| AssemblyOrder.ArrangeLeaves | internal/references2/helpers.go:56-93 | The rules and actions in order of key, name and kind, equal ones as they came; nothing when an object cannot be decoded |
| AssemblyOrder.PlacesDecide | internal/references2/helpers.go:84-140 | Of two objects the one with the smaller order, or else assigned id, or else id in its metadata or its bag, comes first in every assembly, and objects without any come last |
| AssemblyOrder.TiesDecide | internal/references2/helpers.go:84-93 | At the same place the smaller name comes first, and of one name an action before a rule |
| AssemblyOrder.OnlyLeaves | internal/references2/helpers.go:56-83 | Only rules and actions are assembled, under their own names and kinds |
| AssemblyOrder.RefusedExactly | internal/references2/helpers.go:56-83 | Nothing is assembled exactly when an object cannot be decoded |
| AssemblyOrder.ProbeLeaves | internal/probeassemble/pathb.go:141-162 | The same for the probe, which collects its own items and skips what is neither |
| AssemblyOrder.ProbeItem | internal/probeassemble/pathb.go:194-224 | What the probe makes of one object: an item, nothing, or an error |
| AssemblyOrder.AssemblersAgree | internal/probeassemble/pathb.go:141-162 | The operator and the probe arrange the same objects the same way, or both refuse them |
| AssemblyOrder.SortStable | internal/probeassemble/pathb.go:153-162 | The same arrangement, of any list of leaves |
| AssemblyOrder.ArrangementUnique | internal/references2/helpers.go:84-93 | There is one such arrangement only |
| AssemblyOrder.ArrangesAll | internal/references2/helpers.go:84-93 | An arrangement loses and repeats nothing |

## Left out

- PromLexical.ScannerComputesScope: covers queries printed from trees of numbers, strings, operators, aggregations, calls, subqueries and selectors; comments, backquoted strings, hexadecimal numbers, `offset` and `@`, extra arguments of range functions other than literals, and range functions applied to anything but a selector are not in the fragment.
- PromUnions.ScopedQueryOfSeveralWafs: range functions must work series by series, and a selector with a range must stand under one; anywhere else it becomes an `or` of range vectors, which Prometheus refuses and which has no meaning here.
- PromRanges.ScopeOperable: of Prometheus' typing it has that operators take no range vectors; which arguments functions and aggregations take is left out.
- PromUnions.AbsenceExact: functions see values only, so the labels that `absent` and `absent_over_time` take from the text of their selector are one fixed series here.
- RuleRefs.ReconcileRefs: requires a ranking of the RuleSets in reach, which exists exactly when they have no cycle; a cycle behind a RuleSet that stops the resolution is excluded with the others.
- SecRuleChains.ConvertSingleRule: requires that no empty flow slice has its spare capacity where the resource keeps actions, which holds of a decoded resource, where every list has its own array.
- Rollout.ReconcileLead: the leader's slots, status and finalizer writes after publishing are left out, and so is the pod without an extension server.
- DataFileResolution.DiscoverAndResolve: the count of overridden stock files, the content hash, the condition messages and what a failed result still carries are left out.
- PromQL text is a sequence of bytes with one character each: letters are those of ASCII and Latin-1, lower case and white space are those of ASCII, and quoting keeps bytes from 0x80 on.
- SecLang text is a sequence of runes; text that is not valid UTF-8 is left out.
- crslang, its printing and the clean-up of printed rules: its actions are pairs of key and parameter, printed as the key, or as key, colon and parameter in ticks; which actions its constructors accept is a parameter, and so are the name tables of variables, collections, operators and transformations.
- Aliasing between API objects other than the lists of actions of one rule.
- The clean-up of rule comments, which is a parameter.
- Widths of integers: ids, versions and sizes are unbounded, except the order of a converted rule.
- Kubernetes lists, gets, conflicts and failures, the snapshot cache and the packing of filters are parameters; HTTP, gRPC, authentication and trace filtering are left out.
- Provider discovery, challenge secrets, slots of other platforms and the gateway index: mostly lookups.
- Mapping of SecRules, PhraseLists and IPLists to WAFs: the same lookup again, or all WAFs of a namespace.
