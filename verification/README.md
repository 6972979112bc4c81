# Verified models of the pci-dss-mcp scanners

pci-dss-mcp scans Go code for PCI DSS problems: it follows cardholder data and user
input through a module, searches SSA for values that reach loggers or crypto calls,
matches dependencies against the OSV database, and serves the findings in pages and
reports. This project models the parts of it that are algorithms and protocols, in
Dafny, and proves what they guarantee. `dafny verify dfyconfig.toml` checks all of it.

Code that updates state is a class or a method with loops, tied by its `ensures` to a
specification function; the theorems are about those functions. Loops over Go maps take
their keys in an arbitrary order, so what they ensure does not depend on that order.

| Files | Subject |
|---|---|
| `TaintSyntax`, `TaintRules` | Go syntax and type facts; the taint rules as functions of the query state |
| `TaintClosure`, `TaintWalk`, `TaintQuery` | declarative closures, and the proof that a query lies between them |
| `TaintMeaning` | the rules and both bounds of a query said over the type tables alone |
| `TaintExact`, `TaintReaders`, `TaintTables` | when the lower bound reaches further, what binding adds and misses; the two expression readers compared; which catalog tables never mislead the engine |
| `TaintEngine`, `TaintLimits` | the engine on mutable state; modules on which it falls short of its own rules |
| `EngineCache` | the single-flight engine loader as a step protocol |
| `SsaSearch`, `SsaRules` | the budgeted search; its forward and backward instances |
| `SessionCache`, `Pagination`, `PagingSession`, `ReportPaging` | the session cache with its sweeper; cursor pages over it, by the shared selector, in a run of the cache, and by the report tool's own |
| `OsvRanges`, `AliasGroups`, `DepGroups`, `DepMerge`, `DepReport` | vulnerability matching: range events, alias groups, merging through shared pointers, findings |
| `CacheRefresh` | the multi-process cache refresh |
| `PanFindings`, `PanLockstep`, `PanMeaning`, `PanBridge` | the PAN scanner's reductions, index bookkeeping, what the reductions mean for the listed findings, and the taint bridge |
| `Luhn`, `RouterGroups`, `RequirementStatus` | card numbers, router-group coverage, report verdicts |

## Where the code differs from its documentation

- The return rule (R4) never fires. The function stack is popped on every nil callback,
  and the name identifier of a function declaration already gets one, so `return` always
  sees an empty stack (`TaintLimits.ReturnRuleIsLost`, `TaintQuery.QueryStaysBounded`).
- Parameter binding (R3) looks at a function's first call only, since the callee is
  marked visited before its arguments are read, and not even at that once the deepest
  tainted object is at the depth limit (`TaintExact.BindingExactly`,
  `TaintLimits.BindingIsFirstCallOnly`).
- A newly tainted function result alone does not queue another sweep, so a negative answer
  can come too early (`TaintLimits.OutputsDoNotRequeue`); it cannot once more objects are
  tainted than results and keys (`TaintExact.PropagatorsAreComplete`), and the catalog
  tables with which it never can are those without accessors, forward propagators and
  getter-setter pairs (`TaintTables.TablesExactly`).
- A concatenation is tainted for the propagators and clean for assignments and sinks:
  the engine's reader has no case for it and the concatenation propagator's result is
  dropped (`TaintReaders.WhereReadersSplit`).
- Gin getters are recognised as sources first, so the stored-key rule for them is
  reached only for a getter outside the source table; the model keeps both branches.
- The SSA search is not monotone in its budget (`SsaSearch.BudgetIsNotMonotone`).
- A session stored between the load of the former entry of its key and the delete that
  finds that entry expired is lost, before the expiry check
  (`SessionCache.StoreBeforeCheckIsLost`) as well as after it
  (`SessionCache.RacingStoreIsLost`).
- A key stored through the address of a field or an element of an allocation is not
  found from the allocation (`SsaRules.KeyInFieldIsMissed`).
- OSV events are not sorted before evaluation (`OsvRanges.UnsortedFixIsOverruled`), which
  is harmless exactly when it is at the listed versions
  (`OsvRanges.ListingOrderIsHarmlessExactly`).
- `pickBest` meets both its preferences unless GHSA entries and severity data occur
  without a GHSA entry that has severity data (`DepGroups.PickIsPreferredExactly`).
- Two groups can pick entries of one ID, and then one of them is not reported
  (`DepReport.CollisionHidesAGroup`, `DepReport.AllGroupsReportedExactly`). Aliases are merged into the picked entry, while
  the first entry with its ID is reported (`DepReport.MergedAliasNotReported`).
- Two dependencies with one path hide findings (`DepReport.RepeatedPathHides`).
- The report tool projects its filter back by rule, file and line, so findings the filter
  dropped can return (`ReportPaging.DroppedFindingReturns`,
  `ReportPaging.ProjectionIsFilterExactly`).
- A field finding without a type name can take over the source of another field on its
  line (`PanLockstep.SourceOfAnotherField`).
- Cross-reference propagation depends on map order exactly when an unchecked requirement
  hangs on another unchecked one (`RequirementStatus.OrderIndependence`).
- The report tool slices a page without clamping a negative offset
  (`ReportPaging.ReportPageRefines`).

## Model

| member | source | states |
|---|---|---|
| TaintQuery.FlowsToIsSound | internal/taint/propagate.go:49-105 | everything a query taints lies in every fact set closed under R1-R3, the recovery seeds and the propagators, and a positive answer means each such set reaches a sink call |
| TaintQuery.FlowsToIsComplete | internal/taint/propagate.go:64-105 | a negative answer is one more sweep after a state whose tainted set is final and whose facts, outputs and keys included, are closed under the flow rules and reach no sink; so whenever the least flow closure reaches a sink the answer is positive |
| TaintExact.PropagatorsAreComplete | internal/taint/propagate.go:64-105 | once more objects are tainted than outputs and keys, a negative answer's tainted set is closed under source accessors, forward propagators and gin keys too |
| TaintExact.DrainStationary | internal/taint/propagate.go:79-103 | then some sweep after the last new object changes no fact at all |
| TaintMeaning.RulesAre | internal/taint/propagate.go:250-374 | the rules of both bounds, form by form over `uses`, `defs` and `selections`: what identifier and field targets, literal keys, recovery callbacks, decoders, reverse-flow destinations, results, stored keys and parameters become tainted, and what a sink call is |
| TaintMeaning.ReadersAre | internal/taint/propagate.go:390-462 | each reader finds taint exactly where looking into operands ends at an identifier or selector of a tainted object or a call of a tainted function; the propagators look into `+` instead of index operands |
| TaintMeaning.NegativeMeans | internal/taint/propagate.go:33-106 | after a negative answer some facts with the query's tainted set obey every flow rule at every statement of the module, and no statement hands taint to a sink |
| TaintMeaning.NegativeAssignment | internal/taint/propagate.go:250-284 | so where tainted objects taint a right side, the object of every identifier target and of every selected field target is tainted, and no sink call has such an argument |
| TaintMeaning.PositiveMeans | internal/taint/propagate.go:33-106 | after a positive answer, in every set of facts that holds the source and obeys all rules some statement hands taint to a sink |
| TaintMeaning.AssignStep | internal/taint/propagate.go:250-284 | one assignment taints exactly the objects it assigns to, at depth 0, exactly when its right side is tainted, and changes nothing else |
| TaintExact.ExactUnlessMissedIsRead | internal/taint/propagate.go:33-106 | when no rule reads a parameter that binding missed, and outnumbered as above, the answer is positive if and only if every rule-closed set that holds the source reaches a sink |
| TaintTables.ExactOnPlainModules | internal/taint/propagate.go:33-106 | the same equivalence for every source and sink of a module in which no rule reads a parameter of a concrete callee, sinks included, and whose table is harmless |
| TaintTables.TablesExactly | internal/taint/propagate.go:64-105 | sweeping by newly tainted objects never misses a propagator, whatever the module, source and sinks, if and only if the table has no source accessor, no forward propagator and not both a setter and a getter of context keys |
| TaintTables.HarmlessIsComplete | internal/taint/propagate.go:79-103 | with such a table a negative answer's tainted set is closed under all catalog rules, with the module's keys, and reaches no sink |
| TaintExact.BindingExactly | internal/taint/propagate.go:324-374 | after a call the parameter of a tainted argument is tainted if and only if it was, or the callee was not yet visited and no object is at the depth limit; a parameter bound so is one deeper than the deepest object |
| TaintQuery.QueryStaysBounded | internal/taint/propagate.go:64-69 | no object ever carries a depth above the limit, so the depth guard drops no work, and only catalog functions ever return taint |
| TaintQuery.DrainSound | internal/taint/propagate.go:64-105 | a run of sweeps from any state inside a closed set stays inside it, whatever the worklist length |
| TaintQuery.DrainClosed | internal/taint/propagate.go:79-105 | when the worklist empties, the facts the last sweep started from are closed and touch no sink |
| TaintWalk.VisitKeeps | internal/taint/propagate.go:140-245 | every walk only adds facts, keeps them within the module and the catalogs, keeps depths in budget and ends with an empty function stack |
| TaintWalk.VisitSound | internal/taint/propagate.go:140-245 | a walk that starts inside a closed set ends inside it, and a hit is a sink call with an argument tainted under that set |
| TaintWalk.VisitClosed | internal/taint/propagate.go:140-245 | a walk that taints nothing new and hits nothing proves its tainted set closed under every flow rule below the node |
| TaintWalk.Rule3Sound | internal/taint/propagate.go:324-374 | parameter binding stays inside every set closed under binding, whatever was visited before |
| TaintWalk.Rule2Closed | internal/taint/propagate.go:290-310 | a composite literal that adds nothing leaves every keyed field of a tainted element already tainted |
| TaintEngine.Engine.FlowsTo | internal/taint/propagate.go:33-106 | the worklist loop terminates and, for every order of the tainted map, gives the answer and the number of sweeps of the order-free drain; after a no, some facts that hold the source obey the flow rules at every statement and reach no sink, and after a yes all facts that hold it and obey the rules reach one |
| TaintEngine.Engine.SweepFiles | internal/taint/propagate.go:70-95 | one pass over the files is the sweep of the rules, and after growth the queue holds exactly the tainted objects |
| TaintEngine.Engine.SweepAndQueue | internal/taint/propagate.go:70-103 | after a sweep the deduplicated queue has the old length, or exactly as many entries as there are tainted objects, and the untainted remainder shrank strictly |
| TaintEngine.Engine.TakeOne | internal/taint/propagate.go:64-103 | one turn leaves the order-free drain and its sweep count as they were, and decreases the pair of untainted objects and queue length |
| TaintEngine.Engine.DedupObjects | internal/taint/propagate.go:123-134 | the queue keeps its elements and loses its repetitions, and an already distinct queue keeps its order |
| TaintEngine.FlowState.PropagateInFile | internal/taint/propagate.go:140-245 | the walk with in-place state is the walk of the rules, from an empty function stack |
| TaintEngine.FlowState.ApplyRule1 | internal/taint/propagate.go:250-284 | an assignment taints all its targets when any right-hand side is tainted, at depth 0 |
| TaintEngine.FlowState.ApplyRule2 | internal/taint/propagate.go:290-310 | keyed elements taint their fields one after the other, each seeing the fields tainted before it |
| TaintEngine.FlowState.ApplyRule3 | internal/taint/propagate.go:324-374 | the callee is marked visited first, the depth limit is checked next, then parameters of tainted arguments are bound one level deeper |
| TaintEngine.FlowState.SeedRecovery | internal/taint/userinput_sources.go:316-362 | every recovered-value parameter of the callback literals at or from the catalog position is tainted at depth 0, and nothing else |
| TaintEngine.FlowState.PropagateUserInputCall | internal/taint/userinput.go:126-197 | a call adds what the source table gives it, else what the propagator catalog gives it, else what the gin keys give it |
| TaintEngine.FlowState.PropagateCatalog | internal/taint/userinput_propagators.go:135-227 | a reverse-flow entry taints its destination variable and any other entry its result, exactly when a source position is tainted |
| TaintEngine.FlowState.HandleGin | internal/taint/userinput_propagators.go:448-479 | storing a tainted value taints its literal key; reading a tainted literal key taints the getter |
| TaintLimits.ReturnRuleIsLost | internal/taint/propagate.go:155-199 | a module where the documented rules reach the sink through a return statement and the engine answers no |
| TaintLimits.BindingIsFirstCallOnly | internal/taint/propagate.go:341-344 | a module where the binding rule reaches the sink on a second call and the engine answers no |
| TaintLimits.OutputsDoNotRequeue | internal/taint/propagate.go:79-103 | a module with one tainted object and one tainted result on which the rules reach the sink and the engine answers no, so the count above is tight |
| TaintReaders.ReadersAgreeExactly | internal/taint/userinput_propagators.go:365-421 | the two taint readers agree on an expression in every state if and only if the same objects and functions can taint it for both |
| TaintReaders.WhereReadersSplit | internal/taint/propagate.go:390-462 | on a concatenation they differ exactly when anything can taint an operand for the propagators, on an index expression exactly when anything can taint the indexed value for the engine |
| TaintReaders.EngineReads | internal/taint/propagate.go:390-462 | the engine's recursive reader is a lookup in a set of objects and functions fixed by the expression |
| TaintReaders.ConcatenationSplits | internal/taint/userinput_propagators.go:279-300 | a concatenation of the source with a clean operand that is tainted for one reader only |
| EngineCache.SingleFlight | internal/taint/engine.go:100-130 | in every interleaving of callers, Evict and Reset each load entry is loaded at most once and all callers that obtained it return the same result, a failed load included |
| EngineCache.CallerGetsItsRoot | internal/taint/engine.go:100-130 | in every interleaving a caller is given what the load of an entry for the very root it called for delivered |
| EngineCache.LoadsPerRoot | internal/taint/engine.go:239-258 | a root is loaded at most once more than it was dropped, so once in a run without Evict and Reset |
| EngineCache.Cache.GetOrInit | internal/taint/engine.go:100-130 | an uninterrupted call returns the entry's result if it is loaded, else loads it, and leaves every other root's entry alone |
| SsaSearch.SearchExact | internal/taint_ssa/panlogger.go:352-399 | despite the shared visited set the search decides reachability whenever the reachable values number at most the budget |
| SsaSearch.WalkSound | internal/taint_ssa/panlogger.go:352-399 | a positive answer comes with a path of at most as many values as the budget, for every budget and visited set |
| SsaSearch.WalkFinishes | internal/taint_ssa/panlogger.go:352-399 | a negative walk with budget for the unseen part sees its start and finishes every value it newly saw |
| SsaSearch.BudgetDecidesExactly | internal/taint_ssa/panlogger.go:352-399 | for every size, a budget decides all graphs with that many reachable values if and only if it is at least that size |
| SsaSearch.BudgetIsNotMonotone | internal/taint_ssa/panlogger.go:14-14 | a graph on which budget 3 finds the target and budget 4 does not |
| SsaRules.ReachesSink | internal/taint_ssa/panlogger.go:352-439 | a yes comes with a path of at most budget values, each leading to the next through a referrer, whose last one a logger call takes; a value handed straight to a logger is found with any positive budget; and when the budget covers the values led to, the answer is exactly whether such a path exists |
| SsaRules.ForwardEdges | internal/taint_ssa/panlogger.go:359-399 | a value leads to the results of calls that take it, to the aggregate and the address it is stored through, and to every other value computed from it, and is a hit when a logger call is among its referrers |
| SsaRules.AggregateBase | internal/taint_ssa/panlogger.go:405-416 | the result is the end of the chain of field and index addresses, itself neither |
| SsaRules.FindHardcodedKey | internal/taint_ssa/cryptokey.go:164-229 | the constant found is a key at the end of a path of at most budget values, each computed from the next; a key seed is found at once; and when the budget covers the values the seed is computed from, one is found exactly when there is one |
| SsaRules.BackwardEdges | internal/taint_ssa/cryptokey.go:176-229 | a value is computed from its operand, its phi edges, its call arguments, or what the direct referrers of an allocation store, and from nothing else |
| SsaRules.Search.CollectStored | internal/taint_ssa/cryptokey.go:216-229 | the values followed from an allocation are those of the stores among its direct referrers, in order |
| SsaRules.AllocationFeedsExactly | internal/taint_ssa/cryptokey.go:216-229 | a key is traced through an allocation if and only if it is traced from a value that a direct referrer stores |
| SsaRules.KeyInFieldIsMissed | internal/taint_ssa/cryptokey.go:216-229 | a key stored through one field address and loaded through another of the same allocation is not found, with any budget |
| SessionCache.EvictorInvisible | scanner/hybridcache/hybridcache.go:101-185 | in every interleaving of loads, checks and deletes without a store of a key whose former entry a reader or the sweeper has loaded and not let go, stale sweeper clocks included, a reader gets the latest of all stores of a key exactly while its time to live has not passed |
| SessionCache.FreshSessionsInvisible | scanner/hybridcache/hybridcache.go:118-185 | so in every interleaving that stores each session id at most once |
| SessionCache.SweepIsRun | scanner/hybridcache/hybridcache.go:101-114 | a whole sweep is a run of single load, check and delete steps with the same outcome |
| SessionCache.FaithfulExactly | scanner/hybridcache/hybridcache.go:101-185 | a whole run of load, check and delete steps is indistinguishable from a cache that is never swept if and only if no delete lands on a live entry |
| SessionCache.OnlyRacesKill | scanner/hybridcache/hybridcache.go:170-185 | a delete lands on a live entry only after a store of the same key between the load of the former entry and the delete |
| SessionCache.NeverWrong | scanner/reportscanner/session.go:131-154 | in every interleaving a reader gets the latest live store of its key or nothing |
| SessionCache.RacingStoreIsLost | scanner/hybridcache/hybridcache.go:101-114 | a run in which a store between a check and its delete is lost |
| SessionCache.StoreBeforeCheckIsLost | scanner/reportscanner/session.go:139-154 | a run in which a store between the load and the check is lost, live for ten more minutes |
| SessionCache.Cache.EvictExpired | scanner/reportscanner/session.go:77-90 | an undisturbed sweep keeps exactly the live entries, keys in any order |
| SessionCache.Cache.Get | scanner/hybridcache/hybridcache.go:170-185 | the entry if present and live; an expired one is removed and nothing else changes |
| Pagination.SelectAndExecute | scanner/hybrid/selector.go:18-122 | every answer and every cache change by case: oversized limit, bad cursor, expired session, page, failed scan, filtered page, summary |
| Pagination.ResumeIs | scanner/hybrid/selector.go:36-77 | a call with a cursor: undecodable text and another tool's cursor are malformed, an absent or outdated session is expired, and otherwise the answer is the page of at most the page size from the offset on, with a cursor to the rest |
| Pagination.FreshIs | scanner/hybrid/selector.go:79-122 | a call without one: with a limit, a severity or a rule the first page of the filtered list, otherwise a summary; and a limit is too large exactly above the page size |
| Pagination.FollowingCursorsIsLossless | scanner/hybrid/selector.go:18-122 | whatever the first call was, following its cursor while the session lives yields the cached list exactly, in order, and ends |
| Pagination.ChainIsLossless | scanner/hybrid/selector.go:36-77 | any number of follow-ups with any page sizes return the list from the cursor on without gap or repeat |
| Pagination.ChainLength | scanner/hybrid/selector.go:36-77 | with one page size the chain has ended exactly from ceil(remaining / size) calls on |
| PagingSession.SessionIsServed | scanner/hybridcache/hybridcache.go:150-185 | in every run without a racing store, a lookup anywhere after the last store of a session returns its list until ten minutes after that store and nothing after that |
| PagingSession.ClientCollectsAll | scanner/hybrid/selector.go:18-122 | a client whose first response stored its session in such a run, and who follows the cursors within ten minutes, collects the cached list exactly and ends without a cursor |
| ReportPaging.SelectReport | scanner/reportscanner/hybrid.go:45-140 | every answer and every cache change of the report tool by case; no limit is refused |
| ReportPaging.ReportResumeIs | scanner/reportscanner/hybrid.go:45-61 | the same for the report tool with pages of 24, and a negative offset of a live session slices out of range |
| ReportPaging.ReportFreshIs | scanner/reportscanner/hybrid.go:76-140 | and its first pages, of any limit's size |
| ReportPaging.ReportIsLossless | scanner/reportscanner/hybrid.go:45-140 | whatever the report tool's first response was, with any limit, following its cursors while the session lives yields the cached list exactly, in order, and ends |
| ReportPaging.ReportChainLength | scanner/reportscanner/hybrid.go:45-61 | the report tool's chain has ended exactly from ceil(remaining / 24) calls on |
| ReportPaging.ReportRunIs | scanner/reportscanner/hybrid.go:216-266 | every run of the report tool from an offset that is not negative is a run of the selector with page size 24 |
| ReportPaging.ProjectionIsFilterExactly | scanner/reportscanner/hybrid.go:82-101 | the projected list is the filtered one if and only if rule, file and line decide what the filter keeps |
| ReportPaging.DroppedFindingReturns | scanner/reportscanner/hybrid.go:82-101 | a critical field and a high-severity tag of one line: the filter for critical findings keeps one, the report tool shows both |
| ReportPaging.ReportPageRefines | scanner/reportscanner/hybrid.go:216-266 | the report tool's page is the selector's page if and only if the offset is not negative |
| ReportPaging.IssuedOffsetsInRange | scanner/reportscanner/hybrid.go:216-266 | no issued cursor can make either tool slice out of range, and with a page size above zero each one advances, for both page builders |
| OsvRanges.IsAffected | scanner/depscanner/osv.go:80-118 | affected exactly when some SEMVER or ECOSYSTEM range has an event introduced "0", or at or below the version, and neither that event nor a later one is fixed at or below it |
| OsvRanges.VerdictIsOpen | scanner/depscanner/osv.go:80-110 | that is the verdict of the last listed boundary at or below the version |
| OsvRanges.FromTheBeginning | scanner/depscanner/osv.go:87-91 | introduced "0" with one fix affects exactly the versions not at or past the fix |
| OsvRanges.AffectedIsInterval | scanner/depscanner/osv.go:80-110 | for ascending alternating events a module is affected exactly when its version lies in some half-open interval of a considered range |
| OsvRanges.VerdictIsInterval | scanner/depscanner/osv.go:80-110 | the same equivalence for one range |
| OsvRanges.ListingOrderIsHarmlessExactly | scanner/depscanner/osv.go:80-110 | for every total order of versions the fold equals sorted evaluation at every version if and only if it does at the listed ones |
| OsvRanges.UnsortedFixIsOverruled | scanner/depscanner/osv.go:80-110 | a fix listed before an introduction is overruled for every version past both, and differently from sorted evaluation when the fix is the later version |
| AliasGroups.GroupsAreConnected | scanner/depscanner/osv.go:122-151 | two vulnerabilities in one group are connected through shared identifiers, on every input |
| AliasGroups.GroupsAreComponents | scanner/depscanner/osv.go:122-151 | the groups are the connected components if and only if no entry bridges two earlier components or joins one founded without an ID |
| AliasGroups.NeverMergesUnrelated | scanner/depscanner/osv.go:122-151 | the same for every key assignment the grouping rule allows, by induction over the entries |
| AliasGroups.JoinsOneIsNeeded | scanner/depscanner/osv.go:122-151 | exact groups imply that every entry joined at most one component |
| AliasGroups.BridgeSplits | scanner/depscanner/osv.go:122-151 | four entries, one a bridge, on which two copies of one advisory get different groups |
| DepGroups.GroupVulns | scanner/depscanner/osv.go:122-151 | the alias map and the group map list every entry under the key the grouping rule gives it, in order |
| DepGroups.PickBest | scanner/depscanner/osv.go:187-204 | the pick has severity data and is a GHSA entry whenever some member is, if and only if GHSA entries and severity data do not occur without a GHSA entry that has severity data |
| DepGroups.PickIsPreferredExactly | scanner/depscanner/osv.go:187-204 | the same equivalence for the fold that the loop computes |
| DepGroups.PickIsFirst | scanner/depscanner/osv.go:187-204 | ties go to the earlier entry: the pick is the first GHSA entry with severity data, or, when there are none of one kind, the first of the other, or the first entry |
| DepGroups.PreferenceNeedsRatedGhsa | scanner/depscanner/osv.go:187-204 | two entries for which, in either order, the last one is picked and one preference fails |
| DepMerge.MergeGroup | scanner/depscanner/osv.go:153-172 | the picked object shows every other identifier of its group as an alias wherever it is listed, and no other object changes |
| DepMerge.Deduplicate | scanner/depscanner/osv.go:122-175 | for every order of the groups and every sharing of objects: one representative per group, the pick of its group, carrying all identifiers of the group and none from outside its component |
| DepMerge.IdentifiersConserved | scanner/depscanner/osv.go:150-174 | each input entry has exactly one representative and that one ends up with its ID and all its aliases |
| DepMerge.CarriesItsGroup | scanner/depscanner/osv.go:153-172 | when no object is listed in two groups a representative carries exactly the identifiers of its group |
| DepMerge.CarriesItsComponent | scanner/depscanner/osv.go:153-172 | when every entry joins at most one component it carries exactly the identifiers of its component |
| DepMerge.DistinctIds | scanner/depscanner/osv.go:153-175 | then also no two representatives share an ID |
| DepMerge.DistinctIdsExactly | scanner/depscanner/osv.go:153-175 | for every input, no two representatives share an ID if and only if no two groups pick entries of one ID |
| DepMerge.RepresentativesCollide | scanner/depscanner/osv.go:122-175 | on the bridging input two groups pick entries of one ID |
| DepReport.EmitFindings | scanner/depscanner/depscanner.go:124-141 | no ID is reported twice, an ID is reported exactly when it is a representative's and survives the per-path map, and each finding names a dependency and shows the first entry of its ID among the last matches of that dependency's path, no earlier dependency having that ID |
| DepReport.FindingNames | scanner/depscanner/depscanner.go:133-141 | the same for the first candidates of each ID in loop order |
| DepReport.SurvivingExactly | scanner/depscanner/depscanner.go:115-122 | an ID survives if and only if a dependency matches it whose path no later dependency with matches repeats |
| DepReport.RepeatedPathHides | scanner/depscanner/depscanner.go:115-122 | a repeated path hides the earlier matches |
| DepReport.Report | scanner/depscanner/depscanner.go:115-141 | from lookups to findings, with the aliases as deduplication leaves them behind the shared pointers, each finding under the dependency it was found for |
| DepReport.ReportedIds | scanner/depscanner/depscanner.go:115-141 | the reported IDs are exactly the representatives' that some dependency matches whose path no later one repeats, each once |
| DepReport.AllRepresentativesReported | scanner/depscanner/depscanner.go:115-141 | with distinct paths the reported IDs are those of the representatives |
| DepReport.OneFindingPerComponent | scanner/depscanner/depscanner.go:115-141 | with distinct paths and no entry joining two components every entry is connected to exactly one representative, no two representatives are connected, and each has exactly one finding |
| DepReport.AllGroupsReportedExactly | scanner/depscanner/depscanner.go:124-141 | with distinct paths there are as many findings as groups if and only if no two groups pick entries of one ID |
| DepReport.FindingShows | scanner/depscanner/depscanner.go:131-141 | with distinct paths a finding shows the first match that has its ID, as it is after deduplication, and names the dependency that has this match |
| DepReport.FindingCarriesExactly | scanner/depscanner/depscanner.go:131-141 | that match carries all identifiers of its component if and only if it is the picked object or had them all before |
| DepReport.CollisionHidesAGroup | scanner/depscanner/depscanner.go:124-141 | on the bridging input there are two representatives and one finding, which names neither `Y` nor `Z` |
| DepReport.MergedAliasNotReported | scanner/depscanner/depscanner.go:131-141 | two copies of an advisory around a rated one: the finding lacks an alias that was merged into the second copy |
| CacheRefresh.ColdStartDownloadsOnce | scanner/depscanner/httpcache.go:155-176 | from a cold start, in every interleaving under a day, downloads exceed failures by at most one, and readers see no file or a complete one |
| CacheRefresh.AlwaysSafe | scanner/depscanner/filelock.go:15-32 | the lock holder is alone between acquire and release and the canonical file is never partial |
| CacheRefresh.AtMostOneDownloads | scanner/depscanner/update.go:39-157 | two downloading processes are the same process |
| CacheRefresh.OneDownloadExactly | scanner/depscanner/httpcache.go:155-176 | for every length, all cold-start runs of at most that length start at most one download more than failed if and only if the length is under a day |
| CacheRefresh.ForcedRefreshReplaces | scanner/depscanner/httpcache.go:155-176 | in every interleaving a forced refresh that reports success has started a download and leaves a file no older than its start, however fresh the old one was |
| PanFindings.DeduplicateStruct | scanner/panscanner/panscanner.go:892-964 | for every order of the lines, the two slices become the ones given line by line: merged field findings, promoted sources, tags deleted |
| PanFindings.GroupParameters | scanner/panscanner/panscanner.go:969-1036 | for every order of the groups, the first finding of a repeated parameter carries count, functions and highest severity, and the others are deleted from both slices |
| PanMeaning.LinesAreMerged | scanner/panscanner/panscanner.go:892-964 | of each line the last tag goes exactly when its normalized name is that of the last field, which then carries both names, the higher severity, and the tag's source if its own names no type; all others stay as they are, in order |
| PanMeaning.ParametersAreSummed | scanner/panscanner/panscanner.go:969-1036 | the first finding about a parameter of a file stays, with the number of all, their functions in order and the highest severity, and the others go |
| PanMeaning.ScanRaisesNothing | scanner/panscanner/panscanner.go:300-349 | every finding of a scanned file has the severity of an emission that it covers |
| PanMeaning.SeveritiesAreEmitted | scanner/panscanner/panscanner.go:154-202 | and so over any list of files |
| PanMeaning.NormalizeIs | scanner/panscanner/keywords.go:35-50 | names are compared character by character without case, `_` and `-` |
| PanLockstep.FileIsTraced | scanner/panscanner/panscanner.go:300-349 | through both reductions each finding keeps its emission, place, name and order, and its source, its own one unless the file has a takeover; and every emission stays covered |
| PanLockstep.OwnSourcesExactly | scanner/panscanner/panscanner.go:936-945 | surviving findings keep their own sources if and only if no line pairs an unnamed field with a named tag source |
| PanLockstep.SourceOfAnotherField | scanner/panscanner/panscanner.go:936-945 | a line on which a finding ends up with the source of another field |
| PanLockstep.RegistryInLockstep | scanner/panscanner/panscanner.go:176-200 | over any list of files every registered index names the finding of that rule, place and name whose struct field is registered; the source is that of the field paired on its line only in a file where a takeover happens |
| PanLockstep.RegistryOrigin | scanner/panscanner/panscanner.go:176-200 | each registration stems from one source of one file and stands at the index of the finding beside it |
| PanLockstep.NamedIsRegistered | scanner/panscanner/panscanner.go:176-200 | every source with a type and a field name is registered, at that index of the concatenation |
| PanLockstep.ScanLosesNothing | scanner/panscanner/panscanner.go:300-327 | whatever a pass reports, the scan reports a finding of the same rule, file and sensitive name at no lower severity |
| PanLockstep.PanScan.ScanGoFile | scanner/panscanner/panscanner.go:300-349 | the passes over the object's slices give the specified findings and sources of the file |
| PanLockstep.ScanFiles | scanner/panscanner/panscanner.go:154-202 | the file loop yields the concatenation and, when taint is on, the registry at its offsets |
| PanBridge.AdjustSeverityByTaint | scanner/panscanner/taint_bridge.go:203-300 | without an engine nothing changes; with one every result is a finding of the input, in order: annotated at its severity when its source is stored, INFO with the transit note when it is a keyword for transit-only data, and otherwise unchanged |
| PanBridge.AdjustOne | scanner/panscanner/taint_bridge.go:210-297 | one finding, from its source's names and tags, the engine's answer and the path: stored, downgraded, marked for suppression, or kept |
| PanBridge.BridgeIsConservative | scanner/panscanner/taint_bridge.go:203-350 | survivors keep order, place and subject, a severity changes only on a keyword finding and only to INFO, and what is missing was a type finding on transit-only data |
| PanBridge.RaisesOnlyUnranked | scanner/panscanner/taint_bridge.go:239-247 | a severity is raised exactly when an unranked keyword finding is taken for transit only |
| PanBridge.FullScanLosesOnlyTransit | scanner/panscanner/panscanner.go:118-215 | end to end a reported name is missing for its rule and file if and only if taint ran and every finding the scan had for that name was suppressed as transit-only; and then the rule is PAN-TYPE |
| Luhn.LuhnValid | scanner/panscanner/luhn.go:11-36 | the right-to-left loop accepts exactly digit strings of 13 to 19 digits whose checksum is a multiple of ten |
| Luhn.RightmostPair | scanner/panscanner/luhn.go:17-35 | the checksum counts the last digit once and the digit before it doubled, with the digits of the double added, and so on to the left |
| Luhn.SingleDigitErrorDetected | scanner/panscanner/luhn.go:11-36 | changing any one digit of an accepted number is rejected |
| Luhn.AdjacentSwapDetected | scanner/panscanner/luhn.go:11-36 | swapping two adjacent digits is rejected if and only if they differ and are not 0 and 9 |
| Luhn.UniqueCheckDigit | scanner/panscanner/luhn.go:11-36 | every digit prefix of legal length has exactly one check digit |
| Luhn.MatchesRule | scanner/panscanner/luhn.go:84-104 | a rule matches by length and by its fixed prefixes or its numeric range |
| Luhn.RuleIsBrand | scanner/panscanner/luhn.go:40-67 | the table is unambiguous: the matching rule is determined by the first four digits |
| Luhn.BrandMatchesExactly | scanner/panscanner/luhn.go:40-104 | some rule matches a digit string if and only if its first four digits have a brand and the brand allows its length |
| Luhn.IsLikelyPAN | scanner/panscanner/luhn.go:118-120 | accepted exactly when the checksum and some issuer rule agree |
| Luhn.SeparatorsAreIgnored | scanner/panscanner/luhn.go:125-133 | separators between digit groups do not change the verdict |
| RouterGroups.IsAncestorGroup | scanner/auditscanner/pkgmiddleware.go:152-163 | the walk terminates and decides ancestry on every parent map, cyclic ones included |
| RouterGroups.AncestryIs | scanner/auditscanner/pkgmiddleware.go:152-163 | a named group is its own ancestor, and otherwise its ancestors are those of its parent in the map |
| RouterGroups.GroupHasCoverage | scanner/auditscanner/pkgmiddleware.go:167-178 | true exactly when some ancestor or the group itself is covered |
| RouterGroups.WalkIsComplete | scanner/auditscanner/pkgmiddleware.go:152-178 | when the walk stops at the end or at a repetition, every ancestor has been seen |
| RouterGroups.ParentHasMiddleware | scanner/auditscanner/pkgmiddleware.go:127-148 | true exactly when a covered group is an installed one or an ancestor of one, maps in any order |
| RouterGroups.MiddlewareIsCoverage | scanner/auditscanner/pkgmiddleware.go:127-148 | for every context the builder makes, that is coverage of some installed group |
| RouterGroups.RecordInstall | scanner/auditscanner/pkgmiddleware.go:395-408 | only named groups are ever recorded as installed |
| RequirementStatus.BuildStatus | scanner/reportscanner/report.go:288-338 | every requirement gets a verdict: not checked exactly without a scanner, fail exactly with an actionable finding, suppressed exactly with only suppressed findings |
| RequirementStatus.PropagateCrossReferences | scanner/reportscanner/report.go:344-358 | the loop over the map is propagation along some enumeration of its keys |
| RequirementStatus.CheckedIsKept | scanner/reportscanner/report.go:344-358 | no order changes a directly checked requirement or the set of requirements |
| RequirementStatus.OrderIndependence | scanner/reportscanner/report.go:344-358 | all orders agree if and only if no unchecked requirement hangs on an unchecked one with a checked primary |
| RequirementStatus.PropagationCopies | scanner/reportscanner/report.go:344-358 | then an unchecked requirement gets the verdict of its primary and a reference to it, in any order, and no other changes |
| RequirementStatus.ThreeRequirements | scanner/reportscanner/report.go:344-358 | three requirements on which two orders give different statuses |
| RequirementStatus.BuildSummary | scanner/reportscanner/report.go:426-463 | the counts per verdict, and checked plus not checked is the total, maps in any order |
| RequirementStatus.GroupByRule | scanner/reportscanner/report.go:489-523 | each group holds all findings of its rule in order under the first one's severity |
| RequirementStatus.GroupsPartition | scanner/reportscanner/report.go:489-523 | the groups partition the findings: none lost, none repeated |

## Left out

- TaintQuery.FlowsToIsComplete: does not include parameter binding and returns, because the engine does not implement them for every call; `TaintExact` says how far the answer is exact.
- TaintMeaning.NegativeMeans: the flow rules only, for the same reason; results and keys are closed under the conditions of `TaintExact` and `TaintTables`.
- DepGroups.PickIsFirst: not for groups with GHSA entries and severity data but no GHSA entry with severity data, where the preferences exclude each other.
- TaintExact.PropagatorsAreComplete: assumes more tainted objects than outputs and keys; `TaintLimits.OutputsDoNotRequeue` has as many of both and a wrong answer.
- TaintWalk.VisitSound: takes the function stack to be empty, which `VisitKeeps` proves for every walk.
- TaintTables.TablesExactly: a function without parameters is called without arguments, as the type checker demands; other argument counts are free.
- CacheRefresh.ColdStartDownloadsOnce: a crash while the lock is held releases it, as the operating system does for file locks.
- The literal tables of sources, sinks, propagators, logger and crypto names: a function's catalog entries are its `Signature`, an SSA value's are flags on its instruction.
- `go/packages`, `go/types` and SSA construction: their results are finite maps from identifiers and values. `lookupField` and `resolveSinks` are inputs of a query.
- `FlowsToUserInput` and its call-site lookup: it returns false on every path.
- String and bytes conversions in `isArgTainted`: they are ordinary calls here.
- The two panic/recover helpers of the propagator file, which nothing calls during a sweep.
- The engine's sets and maps are Dafny sets and maps in the fields of one object, where the code has maps with `true` values and closure variables.
- Fan-in of the SSA rules over functions and their deduplication by file and line.
- 64-bit wrap-around of offset plus page size.
- Cursor encoding, session-key hashing and filter hashing: cursors are a datatype with a malformed case, session keys opaque strings.
- The report tool's severity recount, histogram and top-N lists, and the stable sorts at the end of grouping: easy members.
- `hybridcache.Reset` and the sweeper's restart.
- HTTP, zip and JSON handling of the download; conditional requests; the branch table of `ensureCacheFresh` for legacy and read-only caches. A download is a nondeterministic outcome.
- DepReport.FindingCarriesExactly: takes every entry to join at most one component; for other inputs `DepMerge.Deduplicate` bounds what a representative carries from below and above.
- Lookup of matches by module path in the dependency scanner: the matches of each dependency are an input, in any order. CVSS scoring, and the stale-cache finding.
- Description texts of PAN findings: a datatype tells the kinds apart that the code tells apart by substrings, and already grouped parameters do not come back as input. Which fields, parameters and literals a syntax pass reports is an input.
- The path markers of transit directories and the engine's flow answer: parameters of the bridge.
- Source parsing that fills the router-group maps, and the per-package cache around it.
- Finding counts, titles and limitations in requirement statuses, and how findings are sorted into requirements.
- Text formatting, tool registration, file walking, git and suppression comments.
