# Data collection core: a verified model

The collector turns configured Prometheus queries into per-cluster, scrape-interval-aware PromQL, runs
them, and files the results under the Kubernetes objects that own the containers. This project models
the parts of it where logic, not plumbing, decides the outcome, and proves what they promise.

| file | models |
|---|---|
| `Text.dfy`, `Duration.dfy`, `DurationReader.dfy` | the string and duration operations the other modules share; how a printed duration is read |
| `Scanner.dfy`, `Rewriter.dfy` | the quote-aware scanners and the eleven-pass interval rewriter, on arbitrary text |
| `QueryTree.dfy`, `TreePasses.dfy` | queries as trees; every pass, and all passes together, as a tree rewrite |
| `MetricNames.dfy` | which metric name is recovered in front of a range |
| `SimpleCalls.dfy`, `CallTexts.dfy` | what new intervals mean when read, and all eleven passes over the text of a plain call |
| `OutsideRanges.dfy` | what the passes leave alone in any text |
| `PassOrder.dfy`, `SettledCalls.dfy` | exactly when the order of the passes does not matter, and a condition on the text for it |
| `PassOrderExample.dfy` | a cleaned query on which it does |
| `OwnerGraph.dfy`, `Containers.dfy` | the owner graph and its path-compressing resolver |
| `OwnerChains.dfy` | whole runs, and the owner of every pod read off the reported rows |
| `RoleQueries.dfy`, `Roles.dfy` | the role-priority query compiler, and a reader and a semantics for its queries |
| `ProcessEvents.dfy` | the process-exit event codec |
| `ClusterFilters.dfy` | registration of cluster filters |
| `LabelMatchers.dfy` | label filters: printing matchers, and reading them back |
| `LabelCleaning.dfy` | what becomes of label names and values when a query is replaced and cleaned up |
| `RunQueries.dfy`, `GroupQueries.dfy` | the query that is run for a cluster, or for a group, and what it selects |
| `ClusterQueries.dfy` | splitting results, and the collection loop |
| `QueryLabels.dfy`, `QueryCleaning.dfy` | embedding the labels placeholder, replacing it, cleaning up |
| `EmbeddedCommas.dfy` | exactly when the embedding leaves no trace for a cluster without identifiers |
| `LabelMaps.dfy` | the recursive merge of semicolon-separated label values |
| `Versions.dfy` | the version cache that is sorted once |
| `ScrapeIntervals.dfy` | recovering a scrape interval from a sample count |

## What was found

Some promises hold only under a condition. The code is modelled as it is; each case has an example, the
condition, and a lemma that says that the condition is exact.

* The order of the eleven passes can matter. If the first range in a call's body has no metric name, the
  call is adjusted for whatever text precedes its own range, and an inner call's new interval can be the
  end of that text. `PassOrderExample` is such a query, one that cleaning leaves as it is. All orders write
  the same query exactly if every call is steady: what it asks for is the same for every set of inner calls
  that have been adjusted before it (`PassOrder.SameInEveryOrder`). That depends on which exporters are
  scraped how often, since equal new intervals do no harm. `SettledCalls.Settled` is a condition on the text
  alone, for all exporters: every call with ranges before its own, and an own one that is replaced, names a
  metric in front of the first one, or the name in front of its own range begins behind the last of the others
  (`SettledCalls.SettledIsSteady`). It is not exact for given
  exporters: where nothing is scraped every query is steady (`PassOrderExample.ExampleIsUnsettled`).
* The role query for exactly two configured roles compares both joined roles with `=`, so a node that
  holds a configured and an unconfigured role is given both (`Roles.TwoRolesExample`). Exactly when it is
  right: `Roles.TwoRolesChoose`, `Roles.TwoRolesChooseUnmixed`.
* The comment on the event decoder says that an integer part below the least possible timestamp is a
  count. The code compares with 100, so a timestamp before the start is still decoded when it is the
  time of a single event. Exactly when a timestamp is recovered: `ProcessEvents.TimestampDecodes`.
* A query with a double comma before a closing brace may not be cleaned up completely after the embedding
  (`EmbeddedCommas.DoubleCommaLeavesATrace`). It is exactly if before every closing brace there is no comma,
  an odd number of them, or two directly behind an opening brace or parenthesis
  (`EmbeddedCommas.NoIdentifiersNoTrace`).
* Adding a label value a second time changes nothing exactly if none of its segments is longer than 255
  characters (`LabelMaps.ReachableAddTwice`). Line ends are removed and the whole value is cut by the first
  insertion only (`LabelMaps.LineEndsOnlyLeaveTheFirst`); what every call sequence stores is
  `LabelMaps.SequenceStores`, and exactly when orders agree is `LabelMaps.OrdersAgree` and
  `LabelMaps.EveryOrderAgrees`.
* The labels of a cluster go into the query text as they are, and are cleaned up with it. The query run
  for one cluster selects exactly the series with its identifiers if and only if no value is empty (an
  absent label matches the empty text), none holds a quote, a backslash or a line end, and no name or value
  holds one of the seven texts that are cleaned up or the placeholder of the label names
  (`RunQueries.OwnFilterIsExact`; the interval passes come after that,
  `ClusterQueries.IntervalsUntouched`). The cluster with site `a,,c` is given the series of the one with site
  `a,c` (`GroupQueries.CleanedTogether`). For the combined query of several clusters see
  `GroupQueries.SplitOfCombinedIsExact` and, value by value, `GroupQueries.AnswerableValueByValue`: there
  values must hold no bar either.
* The comparison of two versions is the lexicographic one exactly if the differences it takes do not wrap
  (`Versions.ComparesLexicographically`); where they do it need not be transitive
  (`Versions.CompareIsNotAnOrder`). A version added after the first question is not sorted in, and the next
  answer is right exactly if it belongs at the end (`Versions.TypedVersions.AddAfterSort`).

## Model

| member | source | states |
|---|---|---|
| Scanner.MatchingRightParen | internal/common/prometheus.go:661-688 | returns the least position where the parenthesis depth outside quoted, escape-aware strings is back to zero, and -1 exactly when there is none |
| Scanner.IntervalInFunctionBody | internal/common/prometheus.go:605-635 | returns the first `[` at depth zero outside strings that has a `]` after it, and the first such `]`; -1 exactly when there is none |
| Scanner.FirstRangeStart | internal/common/prometheus.go:697-714 | returns the first `[` outside strings, -1 exactly when there is none |
| Scanner.LastSelectorStart | internal/common/prometheus.go:719-734 | returns the last `{` outside strings |
| DurationReader.ReadShow | internal/common/prometheus.go:642-656 | reading a printed duration, number by number with its unit, gives the duration, for all 64-bit ones |
| DurationReader.ShowWholeSeconds | internal/common/prometheus.go:642-656 | a printed whole number of seconds has no fraction |
| Rewriter.AdjustedInterval | internal/common/prometheus.go:637-659 | a new interval made from one without brackets, quotes and parentheses has none either |
| Rewriter.MetricNameBeforeRange | internal/common/prometheus.go:716-746 | the loop recovers the text after the last delimiter, without a final selector |
| Rewriter.MetricNameFromExpression | internal/common/prometheus.go:690-695 | the name before the first range, or nothing |
| Rewriter.IsOverTimeParen | internal/common/prometheus.go:580-590 | the backward scan accepts exactly the parentheses whose maximal preceding name ends in `_over_time` |
| Rewriter.FixedNameParen | internal/common/prometheus.go:591-597 | the prefix test accepts exactly the first characters of calls whose maximal name is the function's |
| Rewriter.IntervalFunctionCall | internal/common/prometheus.go:579-603 | finds a closed call of the function that starts here, and misses none |
| Rewriter.ClaimsExclusive | internal/common/prometheus.go:499-513 | no function name is claimed by two interval functions |
| Rewriter.AdjustIntervalsForFunction | internal/common/prometheus.go:542-577 | the builder loop, scanning names forward, yields exactly the edits defined at the calls' parentheses, and their least positive scrape interval |
| Rewriter.PassOnAnyText | internal/common/prometheus.go:542-577 | for any text the result is the text with ordered, disjoint fragments replaced, each between a `[` and the first `]` after it; the interval is the least positive one used, or 0 |
| OutsideRanges.PassesKeepOutside | internal/common/prometheus.go:527-577 | for any text and any passes, what is outside brackets stays as it is, and so do the bracket pairs themselves |
| Rewriter.AdjustIntervalToScrapeInterval | internal/common/prometheus.go:527-540 | the passes are carried out one after the other and the least positive interval of all is returned; without a cluster nothing changes |
| QueryTree.MatchingOfParens | internal/common/prometheus.go:661-688 | on `(` body `)` with a well-formed body the closing parenthesis is the one found |
| QueryTree.FirstOpenOfQuery | internal/common/prometheus.go:605-635 | in a printed tree the range found is the tree's own one |
| QueryTree.FirstRangeOfQuery | internal/common/prometheus.go:697-714 | in a printed tree the first range at any depth is found |
| QueryTree.CallMetricOfQuery | internal/common/prometheus.go:555-558 | the metric recovered from a printed body is that of the tree |
| QueryTree.BodyOfQuery | internal/common/prometheus.go:553-572 | editing the text of a call's body is replacing the tree's own interval |
| TreePasses.PassOnTree | internal/common/prometheus.go:542-577 | one pass over a printed tree prints the tree with the own range of every outermost call of the function adjusted, and uses the same least interval |
| TreePasses.RewriteTwice | internal/common/prometheus.go:532-538 | on steady queries rewriting for one set of functions and then for a disjoint one is rewriting for both at once |
| TreePasses.PassesOnTree | internal/common/prometheus.go:527-540 | on steady queries passes in any order, each function once, are the simultaneous rewrite, for the query and for the interval |
| TreePasses.AllPassesOnTree | internal/common/prometheus.go:527-540 | the eleven passes together are the simultaneous rewrite for all eleven functions of a steady query |
| TreePasses.RewriteWellFormed | internal/common/prometheus.go:542-577 | a pass leaves a well-formed query |
| TreePasses.RewriteStaysSteady | internal/common/prometheus.go:532-559 | a pass leaves the calls of the other functions steady |
| PassOrder.SameInEveryOrder | internal/common/prometheus.go:513-540 | all orders of the passes write the same query exactly if every call is steady |
| PassOrder.PassOrderIrrelevant | internal/common/prometheus.go:513-540 | two orders of the same passes give the same query and interval if also the scrape intervals used are steady |
| PassOrder.PrintInjective | internal/common/prometheus.go:605-688 | no two well-formed queries have the same text |
| SettledCalls.SettledIsSteady | internal/common/prometheus.go:553-559 | whatever is scraped how often, calls are steady if those whose interval is replaced name a metric before the first range, or behind the last one before their own |
| SettledCalls.NameBehind | internal/common/prometheus.go:716-746 | a name that begins behind the last range is recovered whatever text precedes it |
| MetricNames.NameOfSelector | internal/common/prometheus.go:716-746 | in front of a range, a selector's own metric name is recovered, with or without label matchers, after any lead-in |
| MetricNames.MetricOfSelector | internal/common/prometheus.go:553-559 | a call whose body starts its first range with a named selector is adjusted for that metric |
| SimpleCalls.Lengthened | internal/common/prometheus.go:637-659 | a plain duration becomes a text that is read as one scrape interval more, in 64-bit arithmetic, and only for the functions that take durations |
| SimpleCalls.Multiplied | internal/common/prometheus.go:515-525 | `*n` becomes a text that is read as n scrape intervals |
| SimpleCalls.StepMultiplied | internal/common/prometheus.go:639-645 | for `_over_time` the range of a subquery stays and its step `*n` becomes a text that is read as n scrape intervals |
| SimpleCalls.OthersStay | internal/common/prometheus.go:637-659 | a step that is no `*n` stays, and so does an interval that is neither a duration nor `*n` |
| SimpleCalls.ParseSigned | internal/common/prometheus.go:515-525 | which signed decimal numbers are read, up to the limits of 64 bits |
| SimpleCalls.IntervalOfExporter | internal/common/prometheus.go:752-765 | a metric's interval is that of the exporter its prefix names, the one measured from its own samples before the one from `up` |
| SimpleCalls.PlainCall | internal/common/prometheus.go:527-577 | all eleven passes over the text `fn(metric[interval])` replace the interval by what the function owning the name asks for and return the metric's scrape interval |
| CallTexts.DurationsAreLengthened | internal/common/prometheus.go:498-577 | after all passes over the text of a call of one of the eight functions that take durations, and whatever simple text precedes it, the new interval is read as the duration and a scrape interval; that is returned if it is positive |
| CallTexts.StarsAreMultiplied | internal/common/prometheus.go:498-577 | for these, `irate` and `idelta`, `*n` is replaced by a text read as n scrape intervals |
| CallTexts.StepsAreMultiplied | internal/common/prometheus.go:498-577 | for every name ending in `_over_time` the range stays and the step `*n` is replaced so |
| CallTexts.OtherCallsStay | internal/common/prometheus.go:498-577 | calls of any other name stay as they are |
| CallTexts.OtherIntervalsStay | internal/common/prometheus.go:498-577 | and so do those whose interval is neither |
| CallTexts.OtherStepsStay | internal/common/prometheus.go:498-577 | and subqueries whose step is no `*n` |
| PassOrderExample.OrderMattersForNamelessSelector | internal/common/prometheus.go:527-540 | for a nameless first selector two orders of two passes give two texts, both stated |
| PassOrderExample.ExampleIsClean | internal/common/filter.go:243-255 | cleaning leaves the example as it is, so the rewriter can receive it, and the two texts differ |
| PassOrderExample.ExampleIsUnsettled | internal/common/prometheus.go:527-559 | the example's calls are not settled, but steady where nothing is scraped |
| OwnerGraph.KeyParts | internal/container/container.go:30-39 | kind and namespace without underscores can be read back from a key |
| OwnerGraph.KeyInjective | internal/container/container.go:30-39 | keys of different objects differ when kinds and namespaces have no underscore |
| OwnerGraph.WalkIsShort | internal/container/container.go:387-404 | the walk to the top-level owner takes fewer steps than there are ownership entries |
| OwnerGraph.RankExists | internal/container/container.go:387-396 | the walks have a rank that every step lowers exactly if no walk returns to a key it has visited |
| OwnerGraph.AnyRank | internal/container/container.go:387-404 | the top-level owner does not depend on the rank |
| OwnerGraph.AddSelfOwnedPod | internal/container/container.go:400-404 | an entry for a self-owned pod changes no existing resolution and adds no cycle |
| OwnerGraph.SameTopOnWalk | internal/container/container.go:387-399 | every key on a walk has the owner found at its end |
| Containers.DetectionKeeps | internal/container/container.go:330-347 | nothing detected is lost |
| Containers.DetectionClimbs | internal/container/container.go:330-347 | the owners of pods, and of objects detected before the pass, are detected |
| Containers.DetectedIsOwner | internal/container/container.go:330-347 | nothing else is: each new key is the owner of a pod or of an object that is detected after the pass |
| Containers.Cluster.GetOwners | internal/container/container.go:313-351 | the pass records the last direct owner of every object and the owners of relevant objects |
| Containers.Cluster.Walk | internal/container/container.go:387-396 | the loop follows the plain walk to its end and collects the ownerships before it |
| Containers.Cluster.Compress | internal/container/container.go:397-399 | writing the owner found into the path keeps every compressed field equal to the plain walk |
| Containers.Cluster.Resolve | internal/container/container.go:386-405 | the owner returned is the plain walk's, for any compression done before, and all keys on the path are resolved |
| Containers.Cluster.AddSelfOwned | internal/container/container.go:400-404 | a pod without an owner becomes its own, everything compressed so far stays right |
| Containers.Cluster.AddRow | internal/container/container.go:366-441 | one row registers its container under the plain walk's owner and replaces no existing ownership |
| Containers.Cluster.AddContainerAndOwners | internal/container/container.go:353-442 | rows in any order leave the graph with self-owned pods added, every row registered under the plain walk's owner in the final graph, and every key on every row's chain resolved |
| Containers.Cluster.ResolvedAgree | internal/container/collection.go:118-128 | for every resolved key the lookup that trusts the compressed field gives the plain walk's owner |
| Containers.Cluster.EveryRowFound | internal/container/collection.go:111-166 | every processed row is found again in the object it was registered in, with the type of the last row for that container; the object's id is the top-level owner, if owners' kinds have no underscore |
| Containers.ObjectOfOwner | internal/container/container.go:406-417 | the object registered under an owner's key is that owner's own |
| Containers.RegisteredExactly | internal/container/container.go:405-441 | the registered namespace, object and container triples are exactly the image of the rows under owner resolution |
| Containers.RegisterAllStable | internal/container/container.go:366-441 | rows processed later never change what earlier rows registered |
| OwnerChains.Collect | internal/container/container.go:313-442 | a whole run on an acyclic owner graph: every pod and every owner on its chain resolves to the plain walk's owner; the container of every row is found again in the object at the end of the chain of reported owners that starts at its pod, with the type that the last row for it says |
| OwnerChains.OwnersAreHeld | internal/container/container.go:313-351 | after the three passes the graph holds, for every object, the owner that the last row about it names, its kind in lower case, and nothing else |
| OwnerChains.TopOfChain | internal/container/container.go:386-396 | the plain walk from an object on a chain of reported owners ends where the chain does |
| OwnerChains.LeadsToOne | internal/container/container.go:386-405 | on an acyclic owner graph exactly one object is at the end of a pod's chain |
| OwnerChains.UsualOwners | internal/container/container.go:46-53 | pods of a `ReplicaSet` lead to its `Deployment` or to itself, those of a `Job` to its `CronJob` or to itself, those of a `StatefulSet` or `DaemonSet` to that, and pods without a row to themselves |
| Roles.BuildCoreQuery | internal/nodegroup/role.go:111-133 | if a literal can hold the role names, the text that the string builder yields is read as a query that selects, for one role or three and more, the samples with their node's earliest configured role and those of nodes without one |
| Roles.ReadsCoreQuery | internal/nodegroup/role.go:111-133 | the text is read as the query whose meaning the lemmas below give, for any number of roles |
| Roles.ClausesChooseEarliest | internal/nodegroup/role.go:115-121 | the clauses for configured roles select, for each node, exactly its earliest one |
| Roles.CoreQueryChooses | internal/nodegroup/role.go:111-125 | for one role or three and more the query is the priority assignment: the earliest configured role, or the unconfigured ones of nodes without any |
| Roles.TwoRolesEval | internal/nodegroup/role.go:111-125 | what the query selects for exactly two roles |
| Roles.TwoRolesChoose | internal/nodegroup/role.go:111-125 | for two roles it is the priority assignment just when nodes with unconfigured roles hold a configured one exactly if they hold the two joined by a bar |
| Roles.TwoRolesChooseUnmixed | internal/nodegroup/role.go:111-125 | for role names without bars: just when no node mixes configured and unconfigured roles |
| Roles.TwoRolesExample | internal/nodegroup/role.go:117-123 | a node and two roles on which it is not |
| Roles.OneRolePerNode | internal/nodegroup/role.go:82-109 | with at most one unconfigured role the assignment gives every node exactly one role |
| Roles.RoleEngine.DetectRoles | internal/nodegroup/role.go:82-109 | a cluster is accepted just when it has rows and no two of them name roles that are not configured |
| Roles.AcceptedMeansOneRole | internal/nodegroup/role.go:82-125 | on an accepted cluster the compiled query is a function from nodes to roles |
| ProcessEvents.FractionSurvives | internal/container/events.go:94-97 | exit code, flag and integer part are recovered under any perturbation below 1/20000 |
| ProcessEvents.FlagToleranceIsExact | internal/container/events.go:94-97 | with the flag set, integer part, exit code and flag are recovered just when the perturbation is below 1/20000 |
| ProcessEvents.RoundingSurvives | internal/container/events.go:76-147 | with the additions of the encoding query rounded to a spacing of 2^-15, and every step of the decoder rounded, integer part, exit code and flag come out right |
| ProcessEvents.HiddenOomKill | internal/container/events.go:20-33 | the fraction of a hidden out-of-memory kill decodes to exit code 137 with the flag clear |
| ProcessEvents.TimestampDecodes | internal/container/events.go:80-93 | a timestamp above 100 times a count is taken apart correctly just when the count times the distance to the start is below the start, or a single event lies before the start |
| ProcessEvents.CountDecodes | internal/container/events.go:82-85 | a bare count up to 100 is returned with the sample's time and is never the product of a timestamp |
| ProcessEvents.EventRoundTrip | internal/container/events.go:76-103 | decoding timestamp * count + exitCode / 1000 + (0 or 0.0001) + 0.5, perturbed, gives the event |
| ProcessEvents.CountRoundTrip | internal/container/events.go:76-103 | and so does decoding a count up to 100 with such a fraction, at the sample's time |
| ClusterFilters.IsSubset | internal/common/generics.go:26-36 | inclusion of maps, the length test being only a short cut |
| ClusterFilters.Merge | internal/common/generics.go:73-95 | fails just when it is to and a key is in both maps; otherwise it is the union, duplicates resolved by the strategy |
| ClusterFilters.Registry.ValidateDistinct | internal/common/filter.go:123-138 | refuses once a filter without identifiers was seen, for equal names and for equal values of a label, and for nothing else |
| ClusterFilters.Registry.Register | internal/common/filter.go:78-99 | keeps the registry's invariant: unique names, one group per filter, no shared labels, a filter without identifiers alone |
| ClusterFilters.Registry.RegisterAll | internal/common/filter.go:66-76 | succeeds exactly when all filters are pairwise compatible, and then has registered them in order |
| ClusterFilters.CompatibleMeans | internal/common/filter.go:66-138 | they are compatible exactly if all have names, no two the same one or the same value of a label, and one without identifiers is alone |
| ClusterFilters.ExactlyOneGroup | internal/common/filter.go:87-97 | every filter is in the group of its label names and in no other, and the filters of a group are pairwise compatible |
| ClusterFilters.GroupKeepsOrder | internal/common/filter.go:87-97 | a group holds exactly the filters with its label names, in the order of registration |
| LabelMatchers.CalculateFilter | internal/common/filter.go:184-214 | prints one matcher per label name, `=` for one label set and alternatives for several |
| LabelMatchers.ReadsBackExactly | internal/common/filter.go:204-212 | printed matchers are read back as they were meant exactly if no value holds a quote, a backslash or a line end |
| LabelCleaning.CleanIsExact | internal/common/filter.go:243-255 | exactly the texts without the seven patterns are left as they are, and every other one gets shorter |
| LabelCleaning.ThroughIsExact | internal/common/filter.go:232-255 | a text comes through the replacement of label names and the cleaning unchanged exactly if it holds none of the seven patterns and not the placeholder (unless that is the only label name itself) |
| RunQueries.RunQueryIs | internal/common/filter.go:216-255 | for a metric's name, what is run is the metric with every name and value as it came through by itself |
| GroupQueries.MatchesAlternatives | internal/common/filter.go:184-214 | the matcher of a group accepts exactly the values of its label sets, if these hold no metacharacters |
| RunQueries.OwnFilterIsExact | internal/common/filter.go:152-255 | the query that is run for one cluster, read from its text, selects exactly the series that include its identifiers, if and only if these come through unharmed and none is empty |
| GroupQueries.SplitOfCombined | internal/common/filter.go:152-255 | running the combined query of a group and splitting gives an answerable cluster the series with its identifiers, in the same order |
| GroupQueries.SplitOfCombinedIsExact | internal/common/filter.go:152-255 | it does for all clusters of a group, whatever the series, if and only if all are answerable: the query is legible, and every value is matched by what came through |
| GroupQueries.AnswerableValueByValue | internal/common/filter.go:184-255 | for several clusters: all are answerable exactly if no value holds a quote, a line end, a bar or a cleaned text, and no name does |
| ClusterQueries.NoSeriesTwice | internal/common/filter.go:152-169 | no series is answered for two clusters of a group that are answered right; if they are queried together no condition is needed |
| GroupQueries.NoSeriesTwiceIsExact | internal/common/filter.go:152-255 | the queries of two clusters never select the same series exactly if some value differs after it came through |
| GroupQueries.CleanedTogether | internal/common/filter.go:123-138 | two clusters that may be registered together and whose queries select the same series |
| ClusterQueries.SplitResult | internal/common/filter.go:152-169 | the result of every cluster is the sub-sequence of series with its identifiers; a result for one cluster stays whole |
| GroupQueries.IncludingIs | internal/common/filter.go:152-169 | that sub-sequence holds exactly the series with all the labels, each once and in order |
| ClusterQueries.CollectMetric | internal/common/prometheus.go:31-71 | in either query mode and any order of groups merging never fails, whatever the identifiers, and every cluster gets what the query run for it answers, read from its text after the interval passes for that cluster, or what its group's query answers, split: the series with its identifiers, under the conditions above, if the passes change nothing |
| ClusterQueries.AnswersRightIsExact | internal/common/filter.go:152-255 | in either mode, where the passes change nothing, these conditions hold for all clusters of a group exactly if all of them are answered right whatever the series |
| ClusterQueries.IntervalsUntouched | internal/common/prometheus.go:527-540 | the interval passes change nothing in a query without brackets, and nothing if clusters are queried together |
| QueryLabels.CreateRange | internal/common/query.go:32-38 | the indices from 0 on, in order |
| QueryLabels.EmbedAt | internal/common/query.go:115-134 | fails just when there are indices and the query has no closing brace or an index exceeds the parts |
| QueryLabels.PartsOfSplit | internal/common/query.go:40-51 | splitting at closing braces gives one part more than there are braces |
| QueryLabels.JoinOfExtended | internal/common/query.go:115-134 | splitting at closing braces, extending all parts but the last and joining is inserting before every closing brace |
| QueryLabels.Embedders.GetLabelsEmbedder | internal/common/query.go:53-73 | whatever the memo table holds, the embedder returned serves the class and count asked for, and no entry is replaced |
| QueryLabels.Embedders.EmbedClusterLabels | internal/common/query.go:40-134 | embedding through the memo table never fails: the placeholder goes before every closing brace behind a comma; without one, queries with a closing parenthesis stay, others get a selector |
| QueryCleaning.EraseUndoesEmbedding | internal/common/query.go:78-134 | erasing the inserted text gives back the query, for all three classes |
| QueryCleaning.LabelsReplaced | internal/common/filter.go:232-237 | replacing the labels placeholder leaves a comma and the labels before every closing brace |
| EmbeddedCommas.NoIdentifiersNoTrace | internal/common/filter.go:232-255 | for a cluster without identifiers, embedding, replacing and cleaning gives what cleaning the query gives, for all three classes, if and only if every run of commas before a closing brace tolerates one more |
| EmbeddedCommas.CommasVanish | internal/common/filter.go:243-255 | a comma inserted before every closing brace is cleaned away exactly under that condition |
| EmbeddedCommas.SingleCommasTolerate | internal/common/filter.go:243-255 | queries without a double comma meet it |
| QueryCleaning.TidyStays | internal/common/filter.go:243-255 | a query without superfluous commas, empty by clauses and empty selectors is left as it is |
| QueryCleaning.NoLabelsNoGrouping | internal/common/filter.go:232-255 | for a cluster without identifiers a by clause over the cluster's label names disappears |
| EmbeddedCommas.DoubleCommaLeavesATrace | internal/common/filter.go:232-255 | `m{a,,}` does not: it is cleaned to `m{a}`, with the embedding to `m{a,}` |
| QueryCleaning.LabelsReachEverySelector | internal/common/filter.go:232-255 | for a cluster with identifiers the result is the query with the labels as a further matcher of every selector, cleaned |
| QueryCleaning.LabelsSurvive | internal/common/filter.go:232-255 | for selectors and labels without anything to clean up it is exactly that query |
| RunQueries.IntactLabels | internal/common/filter.go:184-255 | printed matchers that come through and hold no closing brace are such labels |
| LabelMaps.LabelMap.Add | internal/common/common.go:39-81 | the recursive, loop-built merge is the fold of the value's segments over the stored ones |
| LabelMaps.Holds | internal/common/common.go:62-74 | the scan with its early exit finds a value just when it is one of the stored segments |
| LabelMaps.AddPartsIsUnion | internal/common/common.go:49-80 | on an existing key the new segments are the old ones followed by the first occurrences of new ones |
| LabelMaps.AddPartsKeepsDistinct | internal/common/common.go:49-80 | distinct segments stay distinct and the segments are the union |
| LabelMaps.AddTwice | internal/common/common.go:49-80 | adding a value again changes nothing just when its over-long segments were all there before |
| LabelMaps.StoredSegmentsAreShort | internal/common/common.go:40-80 | after any calls no stored segment is longer than 255 |
| LabelMaps.ReachableAddTwice | internal/common/common.go:40-80 | in every reachable state a second call changes nothing just when all segments of the value are at most 255 long |
| LabelMaps.AddAll | internal/common/common.go:39-81 | what a key holds after a sequence of calls |
| LabelMaps.AddPartsStores | internal/common/common.go:49-80 | a later call adds the value's segments, each cut to 255, whatever the segments are |
| LabelMaps.AddPartsCuts | internal/common/common.go:49-80 | what it stores are the first 255 characters of parts, or all of shorter ones |
| LabelMaps.FirstCallStores | internal/common/common.go:40-47 | a first call stores a value without line ends, cut to 255 |
| LabelMaps.LineEndsVanish | internal/common/common.go:40-47 | and line ends make no difference to what it stores |
| LabelMaps.SequenceStores | internal/common/common.go:39-81 | any call sequence stores the segments of its first value, stripped and cut as a whole, and the cut segments of the later ones |
| LabelMaps.OrdersAgree | internal/common/common.go:39-81 | two orders of the same calls store the same segments exactly if their first values can be swapped |
| LabelMaps.EveryOrderAgrees | internal/common/common.go:39-81 | all orders do exactly if the first value can be swapped with each of the others |
| LabelMaps.OrderDoesNotMatter | internal/common/common.go:39-81 | call sequences with the same values, in any order and number, store the same set if a first call stores of each what a later one does |
| LabelMaps.PlainIsStoredAlike | internal/common/common.go:39-81 | that is so for values without line ends of at most 255 characters |
| LabelMaps.LineEndsOnlyLeaveTheFirst | internal/common/common.go:40-47 | a value with a line end is stored differently first and second |
| Versions.ComparesLexicographically | internal/kubernetes/kubernetes.go:61-80 | the wrapping comparison is the lexicographic order of major and minor if and only if neither difference it takes wraps |
| Versions.CompareIsNotAnOrder | internal/kubernetes/kubernetes.go:61-80 | where one wraps it need not be transitive |
| Versions.SortedSorts | internal/kubernetes/kubernetes.go:112-116 | the sort yields a permutation, ordered if no difference wraps |
| Versions.SortedIsStable | internal/kubernetes/kubernetes.go:112-116 | versions that compare alike keep their order |
| Versions.TypedVersions.Add | internal/kubernetes/kubernetes.go:82-94 | the first report of every git version is kept, every named node refers to a kept version |
| Versions.TypedVersions.GetExtremum | internal/kubernetes/kubernetes.go:108-122 | sorts at most once and, with no addition after the sort, returns a true minimum or maximum |
| Versions.TypedVersions.HasMinimum | internal/kubernetes/kubernetes.go:162-164 | holds just when there are versions and all are at least the bound, and then all named nodes are |
| Versions.AddThenAsk | internal/kubernetes/kubernetes.go:82-164 | in every run that reports first and asks afterwards the answers are right about the versions collected, if no difference of two of them wraps |
| Versions.FirstReportsAreCollected | internal/kubernetes/kubernetes.go:82-94 | these are what the first named report about every git version says, one of each |
| Versions.TypedVersions.AddAfterSort | internal/kubernetes/kubernetes.go:82-122 | adding a version after the sort and asking: the answer is right exactly if the version belongs behind all the others |
| ScrapeIntervals.SetScrapeInterval | internal/common/prometheus.go:470-474 | writes the interval divided by the sample count and rounded to seconds, or leaves the target alone |
| ScrapeIntervals.RecoveredIs | internal/common/prometheus.go:470-474 | a sample count yields s seconds just when the interval is within half a second per sample of it |
| ScrapeIntervals.OneSampleOff | internal/common/prometheus.go:470-474 | one sample too few, the right number and one too many all yield s seconds just when K >= 2s + 2 |

## Left out

- PassOrder.PassOrderIrrelevant: the condition is exact for the query, but only sufficient for the interval, which is a minimum and can be the same although a call in between used another one.
- TreePasses.AllPassesOnTree: steadiness includes the scrape intervals used, for the interval; for the query alone, `TreePasses.PassesOnTree` does without, and its condition is exact for all orders to agree.
- SettledCalls.SettledIsSteady: the condition on the text is sufficient only; its converse for given exporters is false (`PassOrderExample.ExampleIsUnsettled`), the exact condition is that of `PassOrder.SameInEveryOrder`. It asks for the whole fallback name to begin behind the last range, although the exporter depends on its prefix alone.
- GroupQueries.MatchesAlternatives: the engine for regular expressions is a parameter; all that is taken for granted is that a pattern whose only metacharacters are bars matches its alternatives.
- GroupQueries.SplitOfCombinedIsExact: for two clusters and more, values without metacharacters other than bars; with them the engine decides. The source fixes the mode in which every cluster is queried alone.
- Roles.ClausesChooseEarliest: role names are taken literally as alternatives of a regular expression, although a label value may hold a dot, which matches any character.
- ClusterQueries.CollectMetric: the query is the name of a metric.
- ClusterQueries.AnswersRightIsExact: for clusters whose query the interval passes leave alone; a value with brackets that looks like a call with a range, such as `rate(a[5m])`, may be changed by them.
- LabelMatchers.ReadsBackExactly: the reader knows the form that is printed: `=` and `=~`, no blanks, one-character escapes. Anything else it refuses.
- ProcessEvents.RoundingSurvives: rounding is a bound on the error of every operation; values are below 2^38.
- Rewriter.AdjustedInterval: `time.ParseDuration` is a parameter, any function from text to an optional duration, so the results hold for every parser; what a new interval means is told by the reader of `DurationReader`.
- CallTexts.DurationsAreLengthened: the call has one range, behind a metric name; calls in calls and other bodies are the subject of `TreePasses` and `PassOrder`.
- Roles.BuildCoreQuery: the reader takes single blanks, as printed; names with quotes, backslashes or line ends go into the query as they are and are not read back.
- QueryLabels.EmbedAt: the search string is always "}", so the error for an empty search string is not modelled.
- OwnerChains.Collect: acyclicity is a precondition, given as a rank, because the walk in the source has no cycle guard; namespaces have no underscore, and for the chains kinds have none either.
- Strings are sequences of characters that stand for ASCII bytes; multi-byte white space and cut-off runes are not modelled.
- Well-formed queries have double-quoted literals without call text, and parentheses and brackets that pair up; single-quoted and back-quoted literals are ordinary characters to the source and to the model.
- Fields of containers, objects and namespaces other than their identity, containers and types; they are set to constants. Objects are values, so updates of an object shared between lookups are not modelled.
- The detection of label names and the wrappers that `getContainer` sets up, the kinds of detected owners, and logging.
- The order of label names in a filter is a parameter; the standard library sorts them. Iteration over maps picks any order.
- Label-set fingerprints are the sets of label names themselves; hash collisions are not modelled.
- `NewClusterFilter` fails on a nil specification before `validate` can report it; specifications are values here.
- Exclusion of queries per cluster, platform adjustments, timeouts and connection errors in `CollectMetric`; the query mode is a parameter although the source fixes it.
- A sample count of zero in `setScrapeInterval` divides by zero in the source and is excluded.
- HTTP clients, authentication, CSV output, workload writers, platform detection, quotas and HPA output: input and output with only easy properties.
