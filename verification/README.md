# Verified model of datly

Datly reads a tree of SQL views into nested objects: it queries the tables concurrently, attaches children to parents
by key, binds the values of a request to the placeholders of generated SQL, routes requests to views, warms caches up,
numbers new records and caches responses. The modules below model these parts, and prove what they keep.

| part | modules |
|---|---|
| reading a tree of views | `Keys`, `Join` (what a read is meant to return), `Collectors` (rows and key indexes on the heap), `Protocol` (goroutines and wait groups), `Reader` (the read itself), `SqlJoin` (when it is what the database would join) |
| self-referencing tables | `SelfTree` (`BuildTree` on the heap), `Forest` (what it returns), `SqlTree` (when the parents are those that the database would find) |
| SQL and its values | `Template` (expansion of keywords), `SqlBuilder` (a read), `ExecutorSql` (the statements of an execution), `Criteria`, `CriteriaLaws`, `CriteriaParser`, `CriteriaExact`, `CriteriaBound` (filters that users send) |
| routes | `Routes` (the list specification), `RouteTrie` (the trie on the heap), `RouteMatcher` |
| caches | `Odometer` (the values to warm up with), `Warmup` (goroutines and channels), `ResponseCache` |
| numbering | `Sequencer`, `SequenceValues` (when the values of a sequence are different and not zero) |
| shared | `Lists` |

Code that changes state is modelled by classes and methods, and each method is proved against a function of its inputs
or of the old state; the lemmas are about these functions. Concurrent code is a state machine over all interleavings of
the steps of its goroutines; `Reader.Read` runs the machine of `Protocol` on the heap and visits rows in between in any
order. `dafny verify dfyconfig.toml` checks the project.

## What the code does not keep

Where the code does less than it promises, the code is modelled as it is, an input shows the failure, and the exact
condition is proved.

- A view that other views depend on is waited for only if its own parent is not read in parallel
  (view/collector.go:373-377). Otherwise a child can take the parent's keys before they are there and is dropped without
  an error: `Protocol.SafeExactlyWhenWellPlaced`, `Protocol.TakesTooEarly`. `Reader.Read` requires the placement.
- Go compares keys by type and content, and pointers by the variable they point to, while `normalizeKey` unifies only the
  integers `int`, `int16`, `int32`, `int64` and pointers to them (view/key.go:8-37). A nullable text column is a `*string`
  field (view/schema.go:111-112): its keys never meet in memory, and children that the database returns are dropped. An
  unsigned and a signed key never meet either. `Keys.KeysAgreeExactlyWhen`, `Keys.EqualTextsApart`,
  `SqlJoin.LinkIsSqlExactlyWhen` and `SqlJoin.PointerKeysNeverMeet` say for which column types the read is what the
  database would join; `SqlTree.LinkedExactlyWhen` and `SqlTree.PointersAllReturned` say it for self-referencing tables.
- NULL keys meet in memory but not in SQL, so that the two strategies differ: untyped ones, and nil pointers of one type.
  The condition is exact for reads in which no parent's keys span two batches: `Join.ReadsAgree`.
- A nil `*int64`, the NULL of a nullable BIGINT key, is dereferenced while the parent is indexed (view/collector.go:218-219),
  as is a nil element of an `[]*int64` (view/collector.go:207-210): `Keys.PanicsExactlyWhen`. `Join.Readable` is the
  condition on the tables of a read.
- Keys are not made unique before they are cut into batches, and a parent with several keys can span two batches:
  `Join.BatchingInvisible`, `Join.RepeatedKeyDoubles`, `Join.SplitKeysReorder`.
- `Fetched` runs twice on the ordinary path (reader/service.go:80). Building the tree again is harmless unless some row
  has a NULL parent and some row without a known parent the same NULL as its id: `Forest.BuildTwice`.
- Keywords are looked for anywhere in the text, quotes and comments included, but expanded key by key, so that the
  filter on the parents can be lost: `SqlBuilder.FilteredExactlyWhen`, `SqlBuilder.FilterLost`,
  `SqlBuilder.FilterLostInText`.
- The rows of a cycle in a self-referencing table are met from no returned row, and so are lost: `Forest.CycleNeverMet`.
- A build that excludes the filter still passes its values: `SqlBuilder.BoundExactlyWhen`. The text for warming a cache up
  is built without a batch (reader/sql.go:378-380), and a template with a key for the filter then dereferences nil
  (view/template.go:451-453): `SqlBuilder.BatchNeededExactlyWhen`.
- Reserved numbers can come round or pass zero if the step or the first value is large: `Sequencer.FilledExactlyWhen`.
- User criteria lose tokens between the value of a list item or argument and the next comma, lose a comma after the last
  argument, and gain one between arguments that have none: `CriteriaExact.RestoredExactlyWhen`,
  `CriteriaLaws.SecondValueLost`.
- Parentheses at both ends of a script are taken off whether or not they are a pair:
  `ExecutorSql.ScriptPairedExactlyWhen`, `ExecutorSql.TwoGroupsTorn`.
- A last path segment of one character is dropped: `Routes.CutRestores`.
- The bytes that are hashed for a cached response are ambiguous if a view's name ends with a slash and another one's:
  `ResponseCache.AlikeExactlyWhen`. The whole key in the file makes up for it: `ResponseCache.Cache.Get`.

## Model

| member | source | states |
|---|---|---|
| Keys.NormalizeKeeps | view/key.go:3-39 | Normalizing twice changes nothing and never changes what the database compares; a key becomes nil exactly when it is NULL and no pointer that is left alone. |
| Keys.KeysAgreeExactlyWhen | view/key.go:3-39 | Go and the database agree on all keys of two columns if and only if the columns have one type other than a pointer that is left alone, or types without a common content. |
| Keys.EqualTextsApart | view/key.go:3-39 | Two pointers to one text are equal to the database and not to Go, while two nil ones are equal to Go and not nil. |
| Keys.PanicsExactlyWhen | view/collector.go:201-227 | Indexing a field panics if and only if it is a nil `*int64` or holds one. |
| Keys.PlaceholdersMatchIndex | view/collector.go:523-552 | Where the program does not panic, the type switch that collects `IN` values and the one that indexes rows name the same keys, in the same order. |
| Join.BatchesCoverOnce | reader/service.go:185-205 | The batches are the parent values in order, each once; all but the last are full and none exceeds the limit. |
| Join.BatchingInvisible | reader/service.go:185-205 | Cutting a parent's keys into batches goes unnoticed, whatever the child table holds, if and only if a single batch asks for all of them that a child can have. |
| Join.RepeatedKeyDoubles | view/collector.go:518-565 | A key that stands in two batches attaches its children twice. |
| Join.SplitKeysReorder | view/collector.go:518-565 | Two keys of one parent in different batches change the order of its children. |
| Join.AssembleIsNestedLoop | view/collector.go:143-306 | Reading level by level in batches gives every row the object that a nested loop over the tables gives it, at any depth. |
| Join.HeldUnderStrategies | view/collector.go:464-516 | For one relation, matched reading and reading everything select the same rows if and only if no NULL keys meet, nil with nil or nil pointers of one type. |
| Join.StrategiesAgree | view/collector.go:464-516 | The same for the whole object below a row. |
| Join.ReadsAgree | view/collector.go:464-516 | If no parent's keys span two batches, both strategies return the same objects for a whole tree if and only if no NULL keys meet below a root row. |
| Collectors.IndexCounts | view/collector.go:201-236 | The position index leads from a key to a row as often as the row has that key. |
| Collectors.VisitorMany | view/collector.go:262-306 | The child is appended to the holder of every parent row that has its key, once for each occurrence, and to no other. |
| Collectors.VisitorOne | view/collector.go:238-260 | The child replaces what the holder of every parent row with its key had, and no other. |
| Reader.ReadObjects | reader/service.go:185-205 | The batch loop ends, queries exactly the batches of the specification, and reads their rows in that order. |
| Reader.ParentPlaceholders | view/collector.go:518-565 | The `IN` values of a child are those of the parent's rows, in row order. |
| Reader.TakesAfterVisits | view/collector.go:567-571 | On a well-placed tree a child takes its parent's keys when all rows of the parent were visited. |
| Reader.MergeToParent | view/collector.go:482-516 | One merge attaches every row of a view to exactly its parents, in slice order, and changes no other holder. |
| Reader.MergeData | view/collector.go:470-480 | After the bottom-up merge all relations below a view are attached, each once. |
| Reader.ObjectsAssembled | view/collector.go:143-306 | What the pointers lead to from finished rows is the specified object, grandchildren attached later included. |
| Reader.ReadAll | reader/service.go:74-139 | Every schedule of goroutines and row visits ends with each view read as planned and its matched rows attached. |
| Reader.Read | reader/service.go:28-56 | Under every schedule the root rows are those of the table, and lead to the specified objects; these are the nested loop's when no parent spans two batches, and those that the database would join when moreover the key columns have comparable types and no NULL keys meet. |
| SqlJoin.LinkIsSqlExactlyWhen | view/collector.go:238-306 | Whatever the rows, matching them in memory is joining them in the database if and only if the two key columns have one type other than a pointer that is left alone, or types without a common content. |
| SqlJoin.PointerKeysNeverMeet | view/collector.go:238-306 | With a key column such as a nullable text no row holds a child with a key at all. |
| SqlJoin.NestedLoopIsSql | view/collector.go:143-306 | For comparable key columns, at any depth, what matching in memory finds below a row is what the database would join, multiplicities and cardinalities included. |
| SqlJoin.AssembleIsSql | view/collector.go:143-306 | The same for a whole read in batches. |
| Protocol.StepInv | reader/service.go:74-154 | The invariant on wait groups and program counters survives every step of every goroutine, failed queries included. |
| Protocol.CountersSound | view/collector.go:567-580 | No wait group is ever released below zero, and a view's own group at most once although `Fetched` runs twice. |
| Protocol.WaitMeansDone | reader/service.go:28-56 | When the root has returned and the global counter is zero no goroutine touches a collector any more; without an error every view is complete. |
| Protocol.Progresses | reader/service.go:74-154 | No deadlock: until all goroutines have finished one of them can make a step. |
| Protocol.RunsEnd | reader/service.go:74-154 | Every run has at most eleven steps for each view. |
| Protocol.TakesAfterFetched | view/collector.go:567-580 | On a well-placed tree, in every interleaving, the parent is complete and released when a child takes its values. |
| Protocol.TakesTooEarly | view/collector.go:373-377 | Otherwise there is a run in which a child takes values while its parent is incomplete. |
| Protocol.SafeExactlyWhenWellPlaced | view/collector.go:360-404 | Every child takes complete values under every schedule if and only if each parent that children depend on is waited for. |
| Protocol.WellPlacedIs | view/collector.go:360-404 | The condition in the terms of the configuration: a parent that children depend on, unless it is the root, hangs in a view that is not read in parallel. |
| SelfTree.Climb | view/collector.go:650-681 | The loop ends on any links, cycles and self-parents included, because each step records a pair that was not recorded; it changes exactly the holders that the climb as a function names, and its dedup sets become that function's. |
| SelfTree.SweepAttaches | view/collector.go:650-681 | With distinct ids, cycles allowed, each row with a known parent is attached to it exactly once; without cycles children stand in the order in which their subtrees first occur. |
| SelfTree.SweepAdds | view/collector.go:650-681 | Whatever the ids, something is attached if and only if some row has a known parent. |
| SelfTree.BuildTree | view/collector.go:633-699 | The result is the rows without a known parent, and every holder is extended as the sweep says, for any links and ids. |
| Forest.RankedExactlyWhen | view/collector.go:650-681 | A rank that grows towards the ancestors, as the theorems on forests use it, is there if and only if no row is its own ancestor. |
| Forest.FlatteningIsPermutation | view/collector.go:633-699 | On acyclic links with distinct ids, flattening the forest from its roots meets every row exactly once. |
| Forest.RootsAreUnlinked | view/collector.go:685-696 | With no NULL among the ids, the returned rows are those without a link, in row order. |
| Forest.MetIsFlattened | view/collector.go:650-681 | Following the holders on the heap meets the rows of the flattened forest. |
| Forest.HoldersMeetOnce | view/collector.go:633-699 | If the holders were empty, following them from the result meets every row exactly once and nothing else. |
| Forest.BuildFresh | view/collector.go:633-699 | The same as a contract of the call on freshly read rows without cycles, distinct ids and no NULL id. |
| Forest.CycleNeverMet | view/collector.go:650-699 | A row of a cycle is met from no returned row, at any depth. |
| SqlTree.LinkedExactlyWhen | view/collector.go:650-681 | Whatever the rows, those with a parent in the database find it in memory if and only if id and parent columns have one type other than a pointer that is left alone, or types without a common content. |
| SqlTree.AttachedAsInSql | view/collector.go:650-681 | With comparable columns, distinct ids and no NULL id, a row is attached to the row that the database calls its parent, and to no other. |
| SqlTree.PointersAllReturned | view/collector.go:685-696 | With a pointer that is left alone for an id or a parent every row is returned. |
| Forest.BuildTwice | view/collector.go:573-610 | A second build returns the same rows, and leaves the holders of all rows alone unless, and only unless, some row has a NULL parent and some row without a known parent the same NULL as its id. |
| Template.Bindings.Next | template/expand/placeholders.go:145-157 | The next binding, and none if all were taken. |
| Template.Bindings.Add | template/expand/placeholders.go:60-139 | The values of a parameter join the bindings, and its text has as many placeholders. |
| Template.Bindings.ColIn | template/expand/meta.go:79-100 | The filter that a template writes has a placeholder for each of the parent's values, and lets nothing through without any. |
| Template.ReplacementEntry | view/template.go:440-499 | One keyword, through any nesting of prefixes, gives the text and the values of its entry; the recursion ends. |
| Template.Expand | view/template.go:397-429 | Succeeds if and only if all keywords are known and the bindings suffice; text and values are then those of the tokens, and the bindings moved on by the placeholders. |
| Template.ExpandedTextIsBound | view/template.go:397-511 | The expanded text has as many placeholders as values, and dealing these out from left to right gives every fragment its own. |
| Template.BalancedExactlyWhen | view/template.go:451-453 | Placeholders and values are as many if and only if the parent's values are not asked for or their text has a placeholder for each. |
| SqlBuilder.CriteriaParam.UpdateColumnsIn | reader/sql.go:256-290 | The filter's text has one placeholder for each value of the batch, under the alias of where it stands; it is left as it is if the filter is excluded. |
| SqlBuilder.Build | reader/sql.go:45-135 | A build fails exactly on an unknown column, keyword or missing binding; otherwise its text and values are those of the assembled tokens, and the limits and values of an excluded part are handed to the caller. |
| SqlBuilder.TimesAsked | reader/sql.go:45-135 | How often a build asks for the parent's values, from the keywords its text mentions and the keys it has. |
| SqlBuilder.BatchNeededExactlyWhen | reader/sql.go:378-380 | A build that leaves the filter out looks into its batch if and only if the template has a key for the filter. |
| SqlBuilder.AlwaysFiltered | reader/sql.go:232-242 | If the text mentions the keywords that its keys are, a child is read with the filter on its parents, and once in the plain case. |
| SqlBuilder.FilteredExactlyWhen | reader/sql_meta.go:12-23 | The filter is lost if and only if the text mentions a keyword without having the key. |
| SqlBuilder.FilterLost | reader/sql_meta.go:12-23 | A parameter whose name starts with `COLUMN_IN` keeps every filter out. |
| SqlBuilder.FilterLostInText | reader/sql_meta.go:12-23 | So does the keyword in a comment or in quotes. |
| SqlBuilder.BoundExactlyWhen | reader/sql.go:256-259 | A build has as many values as placeholders if and only if the filter is in its text, has no values, or is not asked for. |
| SqlBuilder.BuiltReadIsBound | reader/sql.go:45-135 | A build that includes the filter binds every placeholder of the final text to the value of its own fragment. |
| SqlBuilder.ArgsInOrder | reader/sql.go:45-135 | Without keywords in the template its values come first, then the parent's, then the selector's. |
| ExecutorSql.TrimParentheses | executor/sql.go:30-39 | The loop takes off blanks and as many parentheses at each end as the text opens and closes with at both, and stops when no more can be taken off. |
| ExecutorSql.ScriptPairedExactlyWhen | executor/sql.go:30-39 | What is left of a paired text is paired if and only if the text is nested as deep as parentheses are taken off, except among those that open and close it. |
| ExecutorSql.OnePairExactlyWhen | executor/sql.go:30-39 | Parentheses around a text are a pair if and only if no shorter beginning of the text is paired. |
| ExecutorSql.TwoGroupsTorn | executor/sql.go:30-39 | Two selects in parentheses are torn: what is left is not paired. |
| ExecutorSql.Build | executor/sql.go:43-66 | Fails if and only if a keyword is unknown or the placeholders exceed the bindings; every statement is expanded from the bindings after those of the statements before it. |
| ExecutorSql.BindingsDealtInOrder | executor/sql.go:51-66 | The values of all statements together are the bindings in their order, each taken once. |
| CriteriaLaws.ClausesSound | router/criteria/parse.go:38-66 | What is accepted is the source of its tree, and each value is the conversion of its literal. |
| CriteriaLaws.ClausesRestore | router/criteria/parse.go:15-268 | Criteria with one value in each item and argument: putting the literals back for the placeholders gives the input, up to canonical names and `!=`, at any nesting. |
| CriteriaLaws.SecondValueLost | router/criteria/parse.go:111-154 | The second value of a list item is lost without an error. |
| CriteriaExact.ClausesAreWhole | router/criteria/parse.go:111-154 | The condition on the input tokens is the condition on the accepted tree. |
| CriteriaExact.RestoredExactlyWhen | router/criteria/parse.go:15-268 | For accepted input, putting the literals back gives the input if and only if each list item and argument is one value and commas stand exactly between two arguments. |
| CriteriaParser.Parse | router/criteria/parse.go:15-36 | The one-pass parser accepts exactly what the grammar accepts, and writes the text and the values of the tree. |
| CriteriaParser.MatchFieldValue | router/criteria/parse.go:156-203 | A value, column or method call is consumed and written as the grammar says, or refused. |
| CriteriaParser.MatchMethod | router/criteria/parse.go:225-255 | The loop over the argument types accepts exactly the arguments of the grammar, and writes them with a comma between two. |
| CriteriaParser.MatchDataSet | router/criteria/parse.go:111-154 | A list is consumed to its closing parenthesis, and written with a comma wherever it had one between items. |
| CriteriaBound.ClausesBind | router/criteria/parse.go:15-268 | Any accepted criteria have as many placeholders as values, and dealing the values out puts each where its literal stands in the tree. |
| CriteriaBound.CriteriaReadIsBound | reader/sql.go:45-135 | A read that carries any accepted criteria is bound to the end: every placeholder of the final text has the value of its own fragment. |
| Routes.CutRestores | router/matcher.go:118-126 | Cutting a joined path gives its segments back if and only if the last one has two characters or more. |
| Routes.SelectedAreChosen | router/matcher.go:74-103 | Descending segment by segment reaches exactly the routes that fit, in which no wildcard was passed where some route has the literal. |
| Routes.LiteralAlwaysFound | router/matcher.go:74-103 | A route of literals is found by its own path, whatever wildcards stand beside it. |
| RouteTrie.Node.Add | router/matcher.go:36-54 | Adding a route to the trie on the heap adds it to the list that the node stands for, keeps the trie's shape, and leaves the nodes beside and above as they were. |
| RouteTrie.Node.Match | router/matcher.go:74-91 | The search appends the node that keeps exactly the indices the list specification selects, or nothing. |
| RouteMatcher.Matcher.Init | router/matcher.go:213-241 | The tries of the methods stand for the routes that are open to each: its own, any method, and preflight requests. |
| RouteMatcher.Matcher.MatchOneRoute | router/matcher.go:157-172 | The outcome is that of the list: found, not matched, or ambiguous. |
| RouteMatcher.Matcher.MatchPrefix | router/matcher.go:243-270 | All endpoints that match a prefix, in their order. |
| RouteMatcher.MatchedAreServing | router/matcher.go:183-198 | The indices that match are those of the endpoints that serve the request. |
| RouteMatcher.OneRouteExactlyWhen | router/matcher.go:157-172 | A route is found if and only if its endpoint serves the request and no other does. |
| RouteMatcher.OwnPathServed | router/matcher.go:157-198 | An endpoint of literals answers its own path. |
| Odometer.TurnAddsOne | view/cache.go:447-492 | A turn adds one to the mixed-radix number of the digits. |
| Odometer.TurnsGoThroughTuples | view/cache.go:447-492 | The turns start at zero, go through all tuples, as many as the product of the lengths, and end. |
| Odometer.PositionIsRank | view/cache.go:447-492 | The position of a combination is the number its digits write, so that none occurs twice. |
| Odometer.AppendSelectors | view/cache.go:447-492 | The loop emits one selector for each tuple in that order, and fails without values or on a refused one. |
| Odometer.EveryCombinationOnce | view/cache.go:342-378 | A case yields one selector for each combination of its values, at the position its digits write. |
| Odometer.GenerateCacheInput | view/cache.go:303-333 | Whatever the order in which cases finish, all inputs of all cases are gathered; it fails if and only if a case does. |
| Warmup.SizeIsSends | warmup/cache.go:157-200 | What the views announced is what their cases send, and all that is not collected is still to be sent. |
| Warmup.NothingSentAfterClose | warmup/cache.go:157-234 | Once the channel is closed nobody is left to send, and each entry or error was collected exactly once. |
| Warmup.ReturnsEverything | warmup/cache.go:200-234 | The result is an error if some message was one, otherwise the rows of all entries, with an error if one was not read. |
| Warmup.Progresses | warmup/cache.go:33-104 | Until the caller has returned some goroutine can go on. |
| Warmup.NobodyBlocked | warmup/cache.go:157-234 | When the caller has returned no goroutine is left behind. |
| Warmup.RunsEnd | warmup/cache.go:157-234 | Every run ends, after a number of steps that the cases bound. |
| Sequencer.CountEmpty | executor/sequencer/walker.go:59-92 | Counts the ids that are zero, nil pointers included, leaves every number as it is, and fails on an unsupported id. |
| Sequencer.Allocate | executor/sequencer/walker.go:26-57 | Writes the ids of a record as stepping through their numbers does, up to the first unsupported one. |
| Sequencer.AdvancedTo | executor/sequencer/walker.go:26-57 | The k-th empty id gets the k-th value of the sequence, all others stay, and the sequence ends after as many values as were empty. |
| Sequencer.StepsDiffer | executor/sequencer/walker.go:26-57 | Two empty ids never get the same step, and each step is one of those that were counted. |
| SequenceValues.DifferentExactlyWhen | executor/sequencer/sequence.go:3-7 | Modulo a power of two, the first values of a sequence are different and none is zero if and only if their number does not exceed the period of the step and the first hit of zero, both computed from the digits. |
| Sequencer.FilledExactlyWhen | executor/sequencer/walker.go:26-57 | Afterwards no id is empty and the new ids are pairwise different if and only if the reserved values are different and not zero in 64-bit arithmetic. |
| Sequencer.OrdinaryUsable | executor/sequencer/walker.go:26-57 | They are if the first value and the step are positive and the range stays below the largest number. |
| Sequencer.Next | executor/sequencer/service.go:16-41 | All empty ids are filled from the reserved range, or nothing is written if some id is not an integer; no id is empty and the new ones differ exactly when the range is usable. |
| ResponseCache.Combine | router/cache/cache.go:117-132 | The buffer that is hashed is location, selectors and view with slashes between them. |
| ResponseCache.KeysCanCollide | router/cache/cache.go:117-132 | Two different keys have the same bytes if a view's name holds a slash. |
| ResponseCache.KeysDiffer | router/cache/cache.go:117-132 | Without slashes in the views different keys have different bytes. |
| ResponseCache.AlikeExactlyWhen | router/cache/cache.go:117-132 | Two views have selectors with the same bytes and different keys if and only if the name of one ends with a slash and the other's. |
| ResponseCache.Cache.Get | router/cache/cache.go:59-77 | For any hash a hit streams the last response that was written for the very same key and has not expired; without collisions such a response is always hit. |
| ResponseCache.Cache.Put | router/cache/cache.go:88-115 | A miss is stored under its key; a failed write leaves no file, one that was not opened leaves the older file, and a hit writes nothing. |

## Left out

- Reader.Read: reads without query errors, and without keys that are a nil `*int64` or hold one; `Protocol` covers runs in which queries fail, where the read returns the error, and on such a key the program panics.
- Reader.ReadObjects: requires a positive batch size, because the program's loop does not end for `Batch.Parent` of zero when there are values.
- RouteTrie.Node.Add: requires that no segment is empty, because the program panics on one; a last segment of one character becomes empty.
- Sequencer.Allocate: requires that the ids of a record are different variables; records that share one are not modelled.
- Warmup.ReturnsEverything: a view whose cases cannot be generated has none, as in the program, which prints the error.
- ResponseCache.Cache.Put: the removal after a failed write succeeds; a removal that fails too is ignored by the program and not modelled.
- CriteriaParser.Parse: starts from tokens, so blanks, quoted parentheses and quoted commas are not modelled.
- CriteriaBound.ClausesBind: blanks before parentheses of a call are not those of the program.
- ExecutorSql.Build: the statements are given; the parser that cuts the script into them is not part of this model.
- SqlBuilder.Build: the column list of a selector is given as a text, or as missing if a column is unknown, and the batch is always there; the program builds some texts without one.
- Reflection, `xunsafe` pointers, schema types, codecs and the JSON marshaller: rows have key and holder fields instead.
- Databases, file systems and HTTP: a query is a filter over a fixed sequence of rows, and the cache's store a map.
- Library lexers and parsers, the template language and `ExpandAsText`: keyword substitution is one simultaneous pass.
- The scan of a template for `?`, braces and keys: templates are sequences of tokens, with texts that hold no key.
- Template meta queries, `OnSkip`, metrics, logging, and the hooks on fetched rows.
- Relations without a column field, which are indexed on demand, and a self-reference combined with child relations.
- Child keys of slice type, which the program cannot look up.
- `Walker.leaf`, whose array loop does not advance.
- Key columns whose database equality is not equality of contents: collations, NaN, and times in different zones.
- Integer widths in keys: a key is an unbounded number, while the sequencer wraps around as `int64` does.
- Case formatting, inheritance of views and parameters, OpenAPI generation and configuration defaults: long but easy.
