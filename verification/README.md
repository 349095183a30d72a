# Verification of the platform template's data rules and protocols

A Dafny model of the parts of this repository that hold real algorithms or
protocols, with proofs of what each is for. Functions state what a component
means, methods follow the source's loops and transactions and are proved against
them, and lemmas carry the results over all inputs, all interleavings or all runs.
`dafny verify dfyconfig.toml` checks the whole project.

## What is proved

**Row-level data permissions** (`SqlFragment`, `PredicateIr`, `Evaluator`,
`Compiler`, `CompilerTexts`, `CompilerCorrectness`, `ScopeCorrectness`,
`ScopeSplicing`, `ConditionParser`, `CelMeaning`, `Transition`, `Engine`,
`PolicyRevision`, `PolicyMeaning`, `SubjectReach`). A small SQL lexer,
parser and evaluator that knows nothing of the compiler gives clauses their
meaning. The compiled clause then selects exactly the rows the in-memory evaluator
allows, alone or spliced after ` AND `, whatever the nesting, and transitions are
only accepted on selected rows. Conditions keep the truth
that CEL gives them as written, so SQL selects, and decisions permit, what the
published policies say. Policies published under one revision decide alike. The column pattern admits SQL's own words as
column names; a clause parses exactly when it names no reserved column
(`ScopeReadable`), and `ReservedColumnUnparsed` shows a schema for which it does
not.

**Dictionary trees** (`Forest`, `ForestWindows`, `TreeItems`, `TreeFilter`,
`TreeCopy`, `ResultTree`, `ResultValidator`, `TreeShape`, `TreeQuery`,
`ItemClause`, `TreeSelection`, `EnumQuery`, `SiblingOrder`, `ResultMeaning`,
`CanonicalQuery`, `TreeMoves`, `StoredTree`, `DictionaryStore`, `StoreHistory`,
`StoredQuery`, `QueryCache`, `CachedTree`). Depths by three-colour marking, the
forest built in windows and stitched, the memoised ancestor filter and the
explicit-stack copy each refine a plain definition; the answer they produce
together is always one the recursive result validator accepts, and holds the rows on
the way up from those the database's WHERE clause would select. Enumerations are read
page by page through that clause. Cached answers are
fresh while the store's own transactions interleave with the steps of any readers,
because every transaction that changes a dictionary raises its version. The
transactions keep every dictionary a forest of at most 512 levels with different
selectable values, accept a move exactly when the old tree has room for the whole
subtree, and so leave only size and count to refuse a query.

**Tenant delegation** (`LinkTable`, `TenantPolicy`, `TenantStanding`,
`TenantAuthorization`). Link
rows replaced one by one end as the requested set; the service over its tables
refines a policy in which no group of ordinary members ever gains the use of a
permission that none of them could use before, and every action changes exactly what
it should about what people can use.

**Authentication** (`RefreshRotation`, `LoginLockout`). Rotation with replay
detection as recommended in section 4.14.2 of RFC 9700, and history clean-up, which
makes no difference to any run; lockout under interleaved attempts and password
changes.

**Outbox** (`RetryDelay`, `Outbox`). Leases, fencing by the lease holder,
dead-lettering, replay and clean-up for any number of workers.

**Files** (`FileProtocol`). Upload intents, objects and rows across stops and lost
answers; every call of the service is a sequence of the interleaved machine's steps.

**Two printers** (`LikePattern`, `Partitions`).

`Texts` holds the text functions that several of these use, `Earliest` the order of
rows by time and id.

## How the source is modelled

- A transaction is one step: it commits completely or not at all, and the audit
  trigger advances a row's version on every update. Row locks and per-file locks
  give mutual exclusion. `UPDATE` assigns simultaneously.
- Text columns that a scope names are not NULL. Digests are injective; generated
  ids and tokens are new. The configured CEL parser, the platform's case mapping,
  the checks of single item fields, the trimming of ids, the length of an item's JSON,
  and decoding and marshalling of envelopes are parameters.
- A pointer to a tree node is the node's id, a slice of a copied tree a stretch of
  an arena of cells, a link row its position in the table.
- Time is a natural number. Only the refresh clock is assumed not to run
  backwards; a login attempt only needs its own two readings in order, and outbox
  and file safety need no clock at all.
- Where a SQL statement may return any of several rows, the model leaves the
  choice open. Which rows other transactions have locked when a statement skips
  locked rows is a parameter.
- Some predicates (`TreeShape.Folded`, `DictionaryStore.Committed`,
  `CompilerCorrectness.Reads`, `CompilerTexts.Lexes`, `StoredTree.Descended`,
  `ResultTree.GrowsOnce`, `RefreshRotation.Cleaning`) are folded behind a quantifier so that their content is
  considered only where it is asked for. Folding changes nothing in what they mean.
- The rows of one dictionary are read in one order for one set of ids.

## Model

| member | source | states |
|---|---|---|
| `ScopeCorrectness.CompileCorrect` | internal/datapermission/compiler.go:23-138 | For every policy list, subject and row of text fields: when compilation succeeds, the clause has one placeholder per argument; SQL parses it exactly when no column it names is a reserved word; and then, with the n-th `?` bound to the n-th argument, it is true of the row exactly when the evaluator allows the row under the same policies without proposed denies |
| `ScopeCorrectness.ReservedColumnUnparsed` | internal/datapermission/schema.go:34-44 | The condition on reserved words is needed: a schema the column pattern accepts, with a column named `not`, compiles to a clause that does not parse |
| `ScopeSplicing.SplicedScope` | internal/authorization/tenant_service.go:817-820 | A compiled scope placed after ` AND ` of another conjunction keeps its meaning: the whole parses exactly when the scope does and is true exactly when both the conjunction and the evaluator say so |
| `ScopeCorrectness.CompiledReads` | internal/datapermission/compiler.go:91-138 | One compiled predicate, at any depth and node count and at any position in a larger clause and argument list, reads back as one bracketed condition that is true exactly when evaluation of the same predicate is true, and evaluation does not fail |
| `ScopeCorrectness.UnionReads` | internal/datapermission/compiler.go:70-89 | A union of compiled predicates is true exactly when some predicate of it evaluates to true |
| `ScopeCorrectness.EvaluateKept` | internal/datapermission/evaluator.go:27-57 | Evaluating the policies without proposed denies gives allowed exactly when some allow's condition matches and no remaining deny's does |
| `CompilerCorrectness.EqualReads` | internal/datapermission/compiler.go:140-158 | A compiled equality is true exactly when the column's text is the bound argument |
| `CompilerCorrectness.InReads` | internal/datapermission/compiler.go:160-193 | A compiled IN list is true exactly when the column's text is among its arguments |
| `CompilerCorrectness.JoinedReads` | internal/datapermission/compiler.go:103-125 | A bracketed AND or OR of clauses keeps each part's meaning and its arguments in order |
| `CompilerCorrectness.NegatedReads` | internal/datapermission/compiler.go:126-134 | A bracketed NOT is true exactly when the clause inside is false |
| `Compiler.CompilePredicate` | internal/datapermission/compiler.go:91-138 | The recursion over a shared node counter returns the specified clause, arguments or error and leaves the counter at the specified count |
| `Compiler.CompileUnion` | internal/datapermission/compiler.go:70-89 | The loop with one fresh budget per predicate yields the specified union or the first error |
| `Compiler.CompileScopes` | internal/datapermission/compiler.go:23-68 | The loop that sorts scopes, the early returns and the final subtraction yield the specified clause or error, in the source's order of errors |
| `Evaluator.EvaluatePredicate` | internal/datapermission/evaluator.go:59-159 | The recursion over a shared node counter returns the specified truth value or error, without short-circuiting, and the specified count |
| `Evaluator.EvaluatePolicies` | internal/datapermission/evaluator.go:27-57 | The loop over policies, with match flags and strict errors, decides as specified |
| `ConditionParser.ConvertCondition` | internal/datapermission/condition_parser.go:86-170 | The recursion over a shared node counter converts a checked CEL tree as specified, which keeps its truth by ConditionMeans |
| `CelMeaning.ConditionMeans` | internal/datapermission/condition_parser.go:86-215 | Whatever the converter accepts, for either target, evaluates exactly when every name the condition mentions has a value of the type it is used with, and then to CEL's own truth of the condition as written |
| `CelMeaning.EvalIsValue` | internal/datapermission/evaluator.go:59-159 | A well-formed predicate evaluates exactly when the budget suffices and its strict value exists, and then to that value |
| `ConditionParser.ConvertExact` | internal/datapermission/condition_parser.go:86-215 | An accepted condition is well formed for its target, and the counter advanced by exactly its number of nodes, all within the depth and node budget |
| `ConditionParser.EvalWithinBudget` | internal/datapermission/evaluator.go:59-159 | Evaluating a well-formed predicate counts exactly its nodes; within budget its only errors are missing or ill-typed attributes, out of budget it cannot succeed |
| `ConditionParser.CompileWithinBudget` | internal/datapermission/compiler.go:91-138 | Compiling a well-formed current-row predicate counts exactly its nodes; within budget its only errors are missing or ill-typed subject attributes |
| `ConditionParser.AcceptedStaysAccepted` | internal/datapermission/condition_parser.go:86-170 | A condition the converter accepts is never later reported too complex or malformed by evaluator or compiler |
| `Transition.EvaluatesCompiles` | internal/datapermission/compiler.go:91-138 | On a row with all fields present, a current-row predicate that evaluates also compiles, with the same node count |
| `Transition.TransitionIsSelected` | internal/datapermission/engine.go:127-192 | Every row on which a transition is accepted is selected by the compiled scope of the same policies |
| `Transition.TransitionIsSelection` | internal/datapermission/engine.go:127-192 | Without proposed conditions, compilation fails exactly when evaluation fails, and selection is the decision |
| `Engine.CompiledIsLinked` | internal/datapermission/policy.go:122-166 | A compiled policy has an empty proposed predicate whenever it declares no proposed condition, and its current predicate mentions no proposed field |
| `Engine.DataEngine.Replace` | internal/datapermission/engine.go:51-81 | All policies pass the checks of document, scope, matcher, actions and conditions and become the new snapshot, together with the sources whose documents its revision digests, or one fails and the old snapshot stays |
| `Engine.DataEngine.Invalidate` | internal/datapermission/engine.go:86-90 | No snapshot is available afterwards |
| `Engine.DataEngine.Pin` | internal/datapermission/engine.go:95-107 | The pinned snapshot is the current one, marked with the engine that pinned it and compiled from its own sources, and the revision returned with it tells exactly which source policies these are, in any order |
| `PolicyRevision.RevisionDecides` | internal/datapermission/engine.go:69-80 | Two snapshots with one revision give every subject the same decisions on every row and transition, failures included, and scopes that parse alike and select the same rows |
| `Engine.DataEngine.MatchedScopes` | internal/datapermission/engine.go:194-222 | Exactly the policies of the pinned or current snapshot for this resource and action that apply to the subject, in order; a snapshot pinned by another engine is refused |
| `Engine.DataEngine.CompileSQL` | internal/datapermission/engine.go:127-143 | The compiled scope of the matched policies, or unavailable |
| `Engine.DataEngine.EvaluateTransition` | internal/datapermission/engine.go:176-192 | The strict decision on current and proposed state under the matched policies, or unavailable |
| `Engine.DataEngine.EvaluateCurrent` | internal/datapermission/engine.go:152-170 | The decision on current state under the matched policies, or unavailable |
| `Transition.CurrentAgainstSelection` | internal/datapermission/engine.go:127-170 | For any policies a row that current evaluation allows is selected; evaluation succeeds exactly when compilation does and every deny with a proposed condition has a current condition that evaluates; then the two agree exactly when the row is not selected or no such deny's current condition matches |
| `Engine.CurrentWithinSelection` | internal/datapermission/engine.go:127-222 | The same for the two readers of one published snapshot, for every subject, row and action |
| `PolicyMeaning.SelectionSaysWhatPoliciesSay` | internal/datapermission/engine.go:127-143 | For one published snapshot: the scope compiles exactly when row and subject settle the conditions it is made of, and then SQL selects exactly the rows for which the condition, as written, of some allow that concerns the request is true and of no unconditional deny |
| `PolicyMeaning.DecisionsSayWhatPoliciesSay` | internal/datapermission/engine.go:152-192 | Transitions and row capabilities are decided exactly when the objects settle the conditions of all policies that concern the request, and permitted exactly when both conditions of some allow are true of them and both of no deny |
| `PolicyMeaning.OtherActionsAgree` | internal/datapermission/engine.go:127-170 | For every action but create, add and update, row capabilities and the compiled scope agree in result and in failure |
| `PolicyMeaning.TenantsApart` | internal/datapermission/engine.go:194-222 | A published policy that concerns a request is a global one, or one of the subject's own tenant for a resource that belongs to tenants |
| `SubjectReach.AnybodyReached` | internal/resourceaction/subject.go:85-107 | A policy without conditions on the subject reaches everybody, or everybody of its tenant |
| `SubjectReach.AttributeChanged` | internal/resourceaction/subject.go:85-107 | A policy that reaches a subject stops reaching it exactly by an id, type, sign-in state or tenant that it does not admit |
| `SubjectReach.RoleAdded` | internal/resourceaction/subject.go:85-125 | One more role takes away exactly the policies that exclude it and brings exactly those that reach the subject otherwise and missed nothing but this role |
| `SubjectReach.UnmentionedRole` | internal/resourceaction/subject.go:85-125 | A role that no published policy mentions changes no answer of any of the three readers |
| `SubjectReach.PolicyReaches` | internal/resourceaction/subject.go:57-83 | No policy that passes the checks is void: each reaches some subject |
| `Engine.TransitionWithinSelection` | internal/datapermission/engine.go:127-222 | For one published snapshot: an accepted transition's row is selected by the compiled scope, and without matched proposed conditions the two readers agree in result and in failure |
| `Forest.DepthUnique` | internal/dictionary/service.go:1338-1383 | Parent links have at most one assignment of depths |
| `Forest.WalkUp` | internal/dictionary/service.go:1351-1374 | Following parents with marks reaches a root or a resolved id, or proves that the links are no forest |
| `Forest.ResolveDepths` | internal/dictionary/service.go:1347-1383 | Three-colour marking succeeds exactly on a forest, and then yields every id's depth and the greatest one |
| `Forest.Build` | internal/dictionary/service.go:1316-1327 | The contract taken for the SDK's builder, met by a body: a graph exactly for unique non-empty ids that form a forest, with roots and children in input order |
| `ForestWindows.BuildItemForest` | internal/dictionary/service.go:1305-1432 | Building whole or in 32-level windows stitched together: fails exactly on an empty or repeated id, a missing parent, a cycle or a level beyond 512, and otherwise gives the forest of one build, with the same child order |
| `ForestWindows.BuildWindows` | internal/dictionary/service.go:1389-1432 | Windows with cut parents, built one by one and appended to their parents' children, give the whole forest |
| `ForestWindows.Stitch` | internal/dictionary/service.go:1413-1424 | Each window root is appended to its parent's children, or some parent was not registered |
| `ForestWindows.Register` | internal/dictionary/service.go:1425-1431 | The explicit-stack traversal registers every node of a partial forest |
| `TreeItems.RulesOrder` | internal/dictionary/service.go:1460-1486 | For any list of sort rules the item comparison is a total preorder whose ties have equal ids |
| `SiblingOrder.CompareMeans` | internal/dictionary/service.go:1460-1486 | One item may stand ahead of another exactly if every rule whose predecessors tie allows it in that rule's own direction, texts by their first different character, and ids do where all rules tie |
| `SiblingOrder.TrustedInOrder` | internal/dictionary/service.go:1024-1026 | Everywhere in an answer or a believed cached result, siblings stand in the order that the query's rules ask for, or sort order and then code without rules |
| `TreeItems.SortItemsSorted` | internal/dictionary/service.go:1305-1308 | Stable sorting yields a sorted permutation |
| `ItemClause.FilterIsWhere` | internal/dictionary/service.go:1147-1160 | A row is enabled and passes the in-memory filter exactly when the WHERE clause of the enumeration query is true of it: LIKE on the lower-case code or name, and IN lists on id, code and COALESCE(NULLIF(value,''),id) |
| `TreeSelection.KeptIsOnSelectedPath` | internal/dictionary/service.go:1213-1303 | The filter keeps exactly the rows on the way up to a root from one that this clause selects, through rows the query sees |
| `TreeFilter.Resolve` | internal/dictionary/service.go:1263-1287 | Resolving one match's ancestry says valid exactly when the item has an enabled, unbroken, acyclic path to a root |
| `TreeFilter.FilterTreeItems` | internal/dictionary/service.go:1213-1303 | With each id resolved at most once, exactly the items on the root path of some matching enabled item are kept, in input order |
| `TreeCopy.CopyForest` | internal/dictionary/service.go:1490-1515 | The explicit-stack copy into allocated slices reads back as the recursive map over the forest |
| `ResultTree.GrowOnce` | internal/dictionary/service.go:1305-1432 | Growing the children of a layer lists every id at or below that layer exactly once and no other |
| `ResultTree.ForestIsPermutation` | internal/dictionary/service.go:1305-1432 | The trees grown from an acceptable forest list each input id exactly once |
| `ResultValidator.TakeAllMeans` | internal/dictionary/service.go:1010-1046 | The running counters accept a list exactly when ids, codes and selectable values are pairwise different and unseen and both limits hold |
| `ResultValidator.SoundMatches` | internal/dictionary/service.go:1047-1051 | Every node of an accepted result matches the query or has a match below it |
| `ResultValidator.Walker.Walk` | internal/dictionary/service.go:1003-1055 | The recursive walk over shared counters accepts exactly the lists that are sound at every node and whose items fit the counters so far, and leaves the counters as specified |
| `ResultValidator.ValidProviderResult` | internal/dictionary/service.go:965-1069 | The whole check accepts exactly the trusted results: head fields, depth, parents, sibling order, matches, differences, size, node limit and total |
| `ResultMeaning.SoundMeans` | internal/dictionary/service.go:1003-1055 | The walk accepts exactly the lists whose items are valid and enabled, name the item above them as parent, stand in the query's order, end in items that the WHERE clause selects, and go no deeper than 512 levels, or one for an enumeration |
| `ResultMeaning.TrustedMeans` | internal/dictionary/service.go:965-1069 | The whole check accepts exactly the results with a right head, such trees, different ids, codes and selectable values, within both limits |
| `TreeShape.GrownSound` | internal/dictionary/service.go:1490-1515 | Everything grown below any kept parent satisfies the validator's checks at every node |
| `TreeShape.ReorderedDifferent` | internal/dictionary/service.go:1305-1308 | Reordering keeps differences, length and total size |
| `TreeQuery.SortedKeptForest` | internal/dictionary/service.go:1213-1303 | Kept items always form a forest; only a kept item below level 512 can be refused |
| `TreeQuery.AnswerTrusted` | internal/dictionary/service.go:1182-1193 | For well-formed stored items the tree answer exists exactly when the enabled rows fit the limits and no kept item is below level 512, holds exactly the kept items, and is always trusted by the validator for the same query |
| `TreeQuery.SelectQueryItems` | internal/dictionary/service.go:1082-1130 | Loading succeeds exactly when no row read has an overlong field and all together stay within the size limit |
| `TreeQuery.BuildResultTree` | internal/dictionary/service.go:1490-1515 | Sorting, building and copying yield the grown tree, or nothing exactly when the links are not acceptable |
| `TreeQuery.QueryStaticTree` | internal/dictionary/service.go:1138-1194 | The pipeline answers exactly when the enabled rows fit and no kept item is too deep; the answer holds exactly the rows on the way up from one that the enumeration's WHERE clause selects, and the validator trusts it |
| `EnumQuery.QueryStaticEnum` | internal/dictionary/service.go:1147-1178 | The enumeration query is refused exactly for a page out of range or too large to send; otherwise it counts the rows that pass the in-memory filter, holds the asked page of them in the query's order, and the validator trusts it |
| `EnumQuery.PagesHoldAll` | internal/dictionary/service.go:1161-1178 | Enough pages, one after the other, hold every matching row once, in order |
| `CanonicalQuery.CanonicalSetExact` | internal/dictionary/service.go:956-963 | Two filter lists have one canonical form exactly when they are equal as sets |
| `CanonicalQuery.SameAnswer` | internal/dictionary/service.go:934-954 | Queries with one canonical form have one answer on every stored state |
| `CanonicalQuery.SameEnumPage` | internal/dictionary/service.go:934-954 | Enumeration queries with one canonical form and page have the same total and the same page |
| `QueryCache.HitIsFresh` | internal/dictionary/service.go:907-912 | Whoever finds an entry under the version it read gets an answer of some committed state no older than that read, however late the entry was stored |
| `QueryCache.StepKeeps` | internal/dictionary/service.go:875-932 | Every step of writers, of readers between version read, cache look-up, item read, cache store and return, and of cache loss keeps entries, readers and replies sound |
| `CachedTree.VersionTells` | migrations/mysql/000024_data_dictionaries.up.sql:4 | Every item or definition transaction that changes the rows of a dictionary raises the version of its definition |
| `CachedTree.TreeVersionsDecide` | internal/dictionary/service.go:447-838 | Along the transactions of the store, an unchanged version means unchanged answers to every query |
| `CachedTree.RepliesAreFresh` | internal/dictionary/service.go:875-932 | In every run in which the store's own transactions and any readers interleave, each reply is the uncached answer at some committed state between that request's version read and its return |
| `CachedTree.EntriesAreTrusted` | internal/dictionary/service.go:911 | In every such run the check on a cached result never turns away an entry that a tree query stored |
| `CachedTree.OnlyLimitsRefuse` | internal/dictionary/service.go:1182-1193 | In every such run no reply is refused as an invalid tree: only size and count refuse a query |
| `StoredTree.ValidateStoredTreeDepth` | internal/dictionary/service.go:755-775 | Reachable equals total and no level beyond 512 holds exactly when the live rows are a forest of at most 512 levels |
| `StoredTree.ValidateItemParentChain` | internal/dictionary/service.go:724-753 | Accepts exactly when the new parent reaches a root through at most 512 live rows of the dictionary, the item not among them |
| `StoredTree.AcceptedIsChained` | internal/dictionary/service.go:682-711 | The chain check never refuses a move that the depth check accepts |
| `TreeMoves.NewLeafFits` | internal/dictionary/service.go:447-521 | A new leaf keeps a forest of at most 512 levels exactly as a root or below a node at depth at most 511 of the old forest |
| `TreeMoves.MoveFits` | internal/dictionary/service.go:637-722 | A move keeps a forest of at most 512 levels exactly when, in the old forest, the new parent is neither the node nor below it and the deepest node that moves along stays within 512 levels |
| `DictionaryStore.StepKeeps` | internal/dictionary/service.go:447-838 | Every transaction keeps every dictionary a forest of at most 512 levels with different values and codes, live items only in live static definitions, and live definitions with different codes |
| `DictionaryStore.Service.constructor` | internal/dictionary/service.go:59-61 | The empty store is sound |
| `DictionaryStore.Service.CreateDefinition` | internal/dictionary/service.go:103-141 | Commits exactly when the fields are valid, a provider is registered if one is named, and no live definition has the code; then it adds exactly that definition |
| `DictionaryStore.Service.UpdateDefinition` | internal/dictionary/service.go:555-590 | Commits exactly for a live definition of the given version with valid fields, and changes only its status and version |
| `DictionaryStore.Service.CreateItem` | internal/dictionary/service.go:447-521 | Commits exactly when the fields are valid, the live static definition has room below the given live parent and code and value are free; then it adds exactly that row and raises the definition's version |
| `DictionaryStore.Service.UpdateItem` | internal/dictionary/service.go:637-722 | Commits exactly for a live row of the given version whose value stays free and whose whole subtree fits below the new parent; then it changes exactly that row and raises the definition's version |
| `DictionaryStore.Service.DeleteItem` | internal/dictionary/service.go:776-838 | Commits exactly for a live row of the given version without live children, and raises the definition's version |
| `DictionaryStore.Service.DeleteDefinition` | internal/dictionary/service.go:591-635 | Commits exactly for a live definition of the given version without live items |
| `StoreHistory.ShownAfter` | internal/dictionary/service.go:447-838 | In what queries read, a create adds exactly its item, an update replaces it with the new fields and parent under its old code, a delete takes it away, and nothing else changes |
| `StoreHistory.DefinitionAfter` | internal/dictionary/service.go:103-635 | Of a definition, each transaction changes exactly its status, its existence, or for an item transaction its version |
| `StoreHistory.CreateExactly` | internal/dictionary/service.go:447-521 | A proper new item is accepted exactly if there is room for one more and its dictionary is a sound tree with it |
| `StoreHistory.UpdateExactly` | internal/dictionary/service.go:637-722 | A proper edit of the current version is accepted exactly if the dictionary is a sound tree with it |
| `StoreHistory.DeleteExactly` | internal/dictionary/service.go:776-838 | A delete of the current version is accepted exactly if the dictionary is a sound tree without the item |
| `StoreHistory.NoLostUpdate` | internal/dictionary/service.go:555-838 | Along any history, once an edit of an item or definition was accepted, no edit prepared on the same or an older version of that row is accepted |
| `StoredQuery.CommittedEnumIsFlat` | internal/dictionary/service.go:447-521 | A committed enumeration has only well-formed roots, so its query is answered for every page in range that fits |
| `StoredQuery.PathIsDepth` | internal/dictionary/service.go:1263-1287 | A path to a root through queried rows is exactly as long as the stored row is deep |
| `StoredQuery.CommittedTreeAnswers` | internal/dictionary/service.go:1138-1194 | On any committed static tree, whatever the filter, the query answers exactly when the enabled rows fit the node and size limits: the store's invariant rules out every other failure |
| `LinkTable.ReplaceLinks` | internal/authorization/tenant_service.go:1634-1700 | Succeeds exactly for bounded, valid, different values and a bounded owner; then the owner's active values are exactly the requested ones, one row each, kept rows are untouched, dropped and revived rows advance their version by one, new rows appear only for values without any row, and all other rows are unchanged |
| `LinkTable.UpsertLink` | internal/authorization/tenant_service.go:1702-1754 | Takes the active row if any, else revives the last updated one, else adds a row |
| `LinkTable.OthersUntouched` | internal/authorization/tenant_service.go:1634-1700 | Replacing one owner's links leaves the active values of every other owner and tenant alone |
| `LinkTable.RetiredValues` | internal/authorization/tenant_service.go:1908-1935 | A conditional soft-delete removes exactly the values its condition names |
| `TenantPolicy.ApplyKeepsCodes` | internal/authorization/tenant_service.go:541-589 | Every action by anyone keeps the codes of a tenant's roles different |
| `TenantPolicy.RunKeepsSound` | internal/authorization/tenant_service.go:248-290 | Along any run of actions by anyone, role permissions stay inside the tenant ceiling and role codes different |
| `TenantPolicy.ApplyKeepsCeiling` | internal/authorization/tenant_service.go:248-290 | Every action by anyone keeps role permissions inside the tenant ceiling and member roles among existing roles |
| `TenantPolicy.ActingKeepsBound` | internal/authorization/tenant_service.go:1461-1490 | Whoever cannot act changes nothing, nobody starts or stops being able to act, and no step raises what the acting members of the group can use |
| `TenantPolicy.BoundedHeld` | internal/authorization/tenant_service.go:1461-1490 | With role permissions inside the ceiling, a bound on what roles grant to a group is the same as a bound on what the group holds |
| `TenantPolicy.StepKeepsBound` | internal/authorization/tenant_service.go:1492-1566 | No action of a group without administrators and no ceiling change raises what the group's roles grant |
| `TenantPolicy.NoEscalation` | internal/authorization/tenant_service.go:591-675 | Along any run of actions by members of a group without administrators, with any ceiling changes in between, whatever permission an active member of the group can use at the end some active member of it could use at the start |
| `TenantPolicy.EscalationOutsideCeiling` | internal/authorization/tenant_service.go:1908-1935 | The ceiling invariant is needed: from a state without it one ceiling change gives a member a permission nobody held |
| `TenantStanding.AdministratorSet` | internal/authorization/tenant_service.go:476-524 | On success the member is an administrator exactly if asked for, its version advances, nobody else's standing changes, and a new administrator can use exactly what counts below the ceiling |
| `TenantStanding.RunKeepsAdministrator` | internal/authorization/tenant_service.go:476-524 | Along every run of anybody's actions a tenant with an active administrator keeps one |
| `TenantStanding.RemovalNeedsAnother` | internal/authorization/tenant_service.go:510-524 | An active administrator can be removed exactly while there is another one |
| `TenantStanding.CeilingSet` | internal/authorization/tenant_service.go:248-290 | A new ceiling takes from each ordinary member exactly what lies outside it and gives none anything |
| `TenantStanding.RoleCreated` | internal/authorization/tenant_service.go:541-589 | A new role has the code, text and permissions asked for, and changes nobody's standing |
| `TenantStanding.PermissionsSet` | internal/authorization/tenant_service.go:591-632 | Those who have the role can afterwards use exactly what their other active roles give and, if it is active, what it now holds |
| `TenantStanding.RoleUpdated` | internal/authorization/tenant_service.go:1268-1321 | A disabled role gives nothing, an active one what it holds; the rest of each member's roles gives what it gave |
| `TenantStanding.DisablingRemoves` | internal/authorization/tenant_service.go:1268-1321 | Disabling a role takes from each ordinary member exactly what no other active role of theirs gives |
| `TenantStanding.DisabledUsesNothing` | internal/authorization/tenant_service.go:1461-1490 | A member whose roles are all disabled can use nothing |
| `TenantStanding.RoleDeleted` | internal/authorization/tenant_service.go:1323-1371 | Whoever had the role loses it, advances the version and can use exactly what the other active roles give |
| `TenantStanding.MemberRolesSet` | internal/authorization/tenant_service.go:634-675 | The member has exactly the roles asked for and can use exactly what counts of what they hold; nobody else is affected |
| `TenantStanding.ActorHolds` | internal/authorization/tenant_service.go:1492-1566 | Whoever changes a role or a member's roles can act, uses everything these roles hold or are to hold, and names the current version |
| `TenantStanding.AdministratorAssigns` | internal/authorization/tenant_service.go:1492-1501 | An administrator may assign exactly what may be granted and counts in the tenant |
| `TenantStanding.MemberAssigns` | internal/authorization/tenant_service.go:1492-1520 | An ordinary member may assign exactly what may be granted, counts in the tenant, and is given by an active role of theirs |
| `TenantAuthorization.NormalizeIDs` | internal/authorization/tenant_service.go:1426-1444 | Accepts exactly bounded lists whose trimmed ids are valid, and returns exactly these, each once, in ascending order |
| `TenantAuthorization.CountIsSize` | internal/authorization/tenant_service.go:1668-1670 | Under the unique index an owner has as many active rows as values |
| `TenantAuthorization.Service.SetTenantPermissions` | internal/authorization/tenant_service.go:248-290 | Succeeds exactly when the policy allows the new ceiling, and then replaces grants, prunes roles and advances versions; otherwise nothing changes |
| `TenantAuthorization.Service.CreateRole` | internal/authorization/tenant_service.go:541-589 | Succeeds exactly when code and name are valid, the code is free, every permission is assignable by the actor and the scope admits the role, and then adds exactly that role; otherwise nothing changes |
| `TenantAuthorization.Service.SetRolePermissions` | internal/authorization/tenant_service.go:591-632 | Succeeds exactly when the replacement set is assignable, in scope and of the current version, and then the role holds exactly that set |
| `TenantAuthorization.Service.SetMemberRoles` | internal/authorization/tenant_service.go:634-675 | Succeeds exactly when the roles are active and everything they hold is assignable by the actor, and then the member has exactly those roles |
| `TenantAuthorization.Service.UpdateRole` | internal/authorization/tenant_service.go:1268-1321 | Succeeds exactly when the new name is valid and the role's permissions are assignable by the actor, and changes only its name, description, status and version |
| `TenantAuthorization.Service.DeleteRole` | internal/authorization/tenant_service.go:1323-1371 | Succeeds under the same condition, removes the role with all its links and advances the members that had it |
| `TenantAuthorization.Service.SetAdministrator` | internal/authorization/tenant_service.go:476-524 | Succeeds exactly for the platform or an active administrator and a current active member, not when removing the last active administrator; then the member is an administrator exactly if asked for and nobody else changes |
| `RefreshRotation.Service.Refresh` | internal/authentication/service.go:598-692 | For whichever row the first query returns: an exchange is of the current token of an unrevoked, unexpired session of an active user and replaces just that token; a rotated token revokes its session; anything else changes nothing |
| `RefreshRotation.Service.Logout` | internal/authentication/service.go:693-726 | Revokes exactly the unrevoked session with this current token, if there is one |
| `RefreshRotation.Service.RevokeSession` | internal/authentication/service.go:366-399 | Revokes exactly the user's own session of this version |
| `RefreshRotation.Service.RevokeAll` | internal/authentication/service.go:401-440 | Unless a forced logout names no open user, every session of the user is revoked and all others, and those revoked before, are unchanged |
| `RefreshRotation.CleanHistory` | internal/datalifecycle/manager.go:192-217 | Of the expired rotated tokens that no other transaction has locked it removes the earliest by expiry and hash, all of them or as many as the batches have room for, and leaves exactly the rest expired |
| `RefreshRotation.CleanUpInvisible` | internal/datalifecycle/manager.go:166-217 | Leaving every history clean-up out of a run gives a run in which all callers are told the same, the same tokens were exchanged and the sessions are the same |
| `RefreshRotation.ExchangedExactly` | internal/authentication/service.go:653-668 | In every state of a run, exactly the current token of a session that is not revoked, not expired and of an active user is exchanged; the session then has the new token, remembers the old one and keeps its expiry, and nothing else changes |
| `RefreshRotation.ReusedExactly` | internal/authentication/service.go:618-652 | Exactly an exchanged token of such a session is reported as reuse and revokes just that session; a rejection changes nothing |
| `RefreshRotation.ExchangesWereDue` | internal/authentication/service.go:598-692 | Along every run, every exchanged token was exchanged at a step at which it was the current token of such a session |
| `RefreshRotation.ExchangedAtMostOnce` | internal/authentication/service.go:598-692 | Over every run with fresh tokens, no refresh token is exchanged twice |
| `RefreshRotation.ReplayedRun` | internal/authentication/service.go:598-692 | Such a run exists: from the empty store a session is opened, its token exchanged once, and presenting it again is reported as reuse and revokes the session |
| `RefreshRotation.ReplayRevokes` | internal/authentication/service.go:618-652 | Presenting any earlier rotated token of a live session of an active user revokes exactly that session |
| `RefreshRotation.ReplayEndsFamily` | internal/authentication/service.go:618-652 | After a replay, no token of that family is accepted at any later point of the run |
| `LoginLockout.CredentialRow.RecordFailure` | internal/authentication/service.go:581-597 | Counts exactly while hash, lock and user status allow it, by one; from now on the credential is locked exactly if the threshold is reached and the lock duration has not passed |
| `LoginLockout.CredentialRow.CommitLogin` | internal/authentication/service.go:544-556 | Exactly when the version is still the one that was read, the credential is unlocked, keeps its hash and fences every other login that read the old version |
| `LoginLockout.CredentialRow.UpdatePassword` | internal/authentication/service.go:477-491 | Exactly at the expected version it replaces the hash, unlocks the credential and revokes every session of the user |
| `LoginLockout.LoginsAreSound` | internal/authentication/service.go:492-572 | In every interleaving, each committed login found the credential unlocked and the hash it had verified still current |
| `LoginLockout.FailuresAreSpaced` | internal/authentication/service.go:581-597 | Since the last reset, the n-th counted failure (n at least the threshold) comes no earlier than the threshold's plus one lock duration for each further one |
| `RetryDelay.OutboxRetryDelay` | internal/eventbus/outbox.go:345-363 | The loop ends without overflow; the delay is at least min(base times 2 to the attempts, maximum), never above the maximum, and jitter adds at most a fifth |
| `RetryDelay.DoubledBounds` | internal/eventbus/outbox.go:352-360 | Before jitter the delay is the maximum or exactly base times 2 to the attempts, between the two bounds |
| `RetryDelay.BeforeJitterMonotone` | internal/eventbus/outbox.go:345-363 | More failed deliveries never shorten the delay before jitter |
| `Outbox.Table.Claim` | internal/eventbus/outbox.go:257-286 | Leases the earliest claimable row, by creation time and id, that no other transaction has locked and returns it without an oversized envelope; nobody can claim it again until the lease has passed; or no free row is due and unleased |
| `Outbox.Table.UpdateClaim` | internal/eventbus/outbox.go:304-340 | Changes the row exactly when it is still leased to this worker, unpublished and not removed; afterwards it is no longer leased to it, a published or dead row is never claimable and a retried one exactly from the end of its delay |
| `Outbox.Table.Replay` | internal/eventbus/repair.go:103-157 | Revives exactly a dead row of this version whose new bytes decode, with no attempts counted and claimable from now on |
| `Outbox.StepKeeps` | internal/eventbus/outbox.go:172-340 | Every step of workers, crashes, replays and clean-up keeps rows and what workers hold sound |
| `Outbox.PublishedWasDelivered` | internal/eventbus/outbox.go:172-224 | In every interleaving no row is both published and dead, a published row was handed to the bus under its own id as its own envelope, decoded and marshalled again, and only published or dead rows are removed |
| `Outbox.HolderIsCurrent` | internal/eventbus/outbox.go:304-340 | A worker whose update would succeed holds the row's current attempts and bytes |
| `Outbox.LeaseExcludes` | internal/eventbus/outbox.go:257-286 | Along every run, whoever claims a row after another claim of it, with no update by a holder and no replay in between, claims it after that lease has passed |
| `Outbox.LeaseEnds` | internal/eventbus/outbox.go:257-286 | A row whose holder never answers can be claimed again exactly once its lease has passed |
| `Outbox.ReleaseDecides` | internal/eventbus/outbox.go:300-340 | A failed delivery counts one attempt; the row dies exactly if its bytes do not decode and the attempts are used up, and is otherwise claimable exactly from the end of the delay |
| `Outbox.DecodableNeverDies` | internal/eventbus/outbox.go:228-240 | A row whose bytes decode is never dead-lettered, at any later point of the run |
| `Outbox.ReplayedNeverDies` | internal/eventbus/repair.go:128-156 | A successfully replayed row never becomes dead again |
| `FileProtocol.Service.Upload` | internal/files/service.go:219-292 | Succeeds exactly if intent, object and row were all confirmed, and then there are just the new row, its object and its completed intent; failure leaves no object without a live row or a pending intent |
| `FileProtocol.Service.ProcessUploadIntent` | internal/files/service.go:633-690 | An existing live row wins and completes the intent; otherwise the object goes before the intent is abandoned, or the intent stays pending with one more attempt; live files keep their object |
| `FileProtocol.Service.Delete` | internal/files/service.go:461-508 | Succeeds exactly for a live row of this version whose deletion was confirmed, and soft-deletes it; failure changes nothing or has soft-deleted the row without an answer; either way rows, intents and objects stay consistent, with the object queued until it is gone |
| `FileProtocol.Service.ProcessDeletion` | internal/files/service.go:692-728 | Marks the row only after the object is gone; otherwise the deletion stays queued with one more attempt and a new version |
| `FileProtocol.RepairIsSteps` | internal/files/service.go:633-690 | A whole repair, however its calls answer, is a sequence of the interleaved machine's steps, amid any processes that do not hold this file's lock |
| `FileProtocol.UploadIsSteps` | internal/files/service.go:219-292 | So is a whole upload with the repair of its failure |
| `FileProtocol.DeleteIsSteps` | internal/files/service.go:461-508 | So is a whole deletion, amid any processes at all |
| `FileProtocol.LeadsKeeps` | internal/files/service.go:219-292 | Such a sequence keeps the protocol's invariant from any state of the machine |
| `FileProtocol.StepKeeps` | internal/files/service.go:219-292 | Every step of interleaved uploads, repairs and deletions, with stops and lost answers anywhere, keeps the protocol's invariant |
| `FileProtocol.NothingLostNothingOrphaned` | internal/files/service.go:244-291 | Along every run a live file has its object, and a stored object has a live file, a pending intent or a queued deletion |
| `FileProtocol.RepairSparesCompleted` | internal/files/service.go:633-673 | No step removes a live file's object, and repair only removes objects without any row |
| `LikePattern.ContainsExactly` | internal/database/like.go:5-13 | For all texts and values, the LIKE predicate with ESCAPE '!' accepts the text against the pattern exactly when the value is a substring of it |
| `LikePattern.LiteralMatches` | internal/database/like.go:5 | An escaped value matches itself and nothing else, whatever the pattern goes on with |
| `Partitions.ParsePrinted` | internal/datalifecycle/manager.go:411-426 | Parsing inverts printing for years 0 to 9999 |
| `Partitions.PrintParsed` | internal/datalifecycle/manager.go:415-426 | Only printed names parse |
| `Partitions.NameOrder` | internal/datalifecycle/manager.go:411-413 | Names compare as their months do |
| `Partitions.RetainPartitions` | internal/datalifecycle/manager.go:328-394 | The loop removes exactly the first `limit` expired partitions in name order and leaves the rest in order |
| `Partitions.LeftAndRemoved` | internal/datalifecycle/manager.go:328-394 | What is left and what is removed are together exactly the children |
| `Partitions.RemovedAreOldest` | internal/datalifecycle/manager.go:345-353 | What a run removes has ended by the cutoff and is no younger than any expired partition it leaves |
| `Partitions.EnoughRunsRemoveAll` | internal/datalifecycle/manager.go:328-394 | With n expired partitions, n divided by the limit, rounded up, runs remove them all |

## Left out

- HTTP and gRPC transports, wiring, metrics, tracing, logs and configuration checks: plumbing around the modelled code.
- CEL parsing and type checking, YAML and protobuf decoding, password hashing and token signing: taken as parameters or as injective.
- Row-level NULL: a scope on a nullable column would need three-valued logic; the modelled schemas only hold text columns.
- SQL collation: item and partition names are compared character by character.
- The cache under interleaved writers is modelled for trees; of enumerations, the query, its pages, the check of a cached page and the cache key.
- A definition's name, description and extension, and dictionaries backed by a provider: the result check is modelled, not the provider.
- Result name and extension in a cached answer come from the definition row that was read first; the freshness result is about the items.
- Trimming and lower-casing of request fields other than id lists, byte length of strings and invalid UTF-8.
- The operation and security log entries of tenant delegation.
- Membership and tenant status changes during a coalition run: reactivating a member that already holds roles is an administrative act.
- Access tokens, the must-change-password flag and session listing.
- The envelope bytes of a published row after retention clean-up, which erases them.
- A store call that takes effect after its caller has been answered and has moved on, and a lock that expires under a running upload.
- Upload staging, content-type checks, download links and the deletion back-off, which only delays.
- Archiving of detached partitions, creation of future ones and the row-by-row purge of the other dialect.
- Forest.Build: the tree builder of the SDK is not part of this model; its contract is what the source relies on.
- ResultTree.GrowOnce: stated for graphs of parent links, not for arbitrary pointer graphs, because the builder only produces those.
