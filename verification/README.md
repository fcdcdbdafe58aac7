# Volcano DB: verified model

A Dafny model of the query engine and transaction core of Volcano DB, with proofs of what they promise.
`dafny verify dfyconfig.toml` checks all of it.

## What is modelled

Each Rust function that works by updating state is a Dafny method of a class with the same fields, tied by
its `ensures` to a function on values; the theorems are about those functions. Pure Rust functions are
functions.

**Transactions, write-ahead log, recovery** (`Transactions`, `Handler`, `Recovery`, `Server`). The transaction
manager, the statement handler and recovery are imperative. A server is a `World`: the shared database and
the sessions. A run is any list of `Step`s: a statement of some session, a client that disconnects, or a crash
followed by recovery. `Lifecycle` has the invariant of one server generation, `WriteAhead` and `Durability`
relate statements, log and recovered tables, `RollbackDiscipline` and `DisciplinedRuns` treat undo by position,
`Generations`, `IdReuse` and `CrashSafety` any number of crashes, `Isolation` and `Restart` what whole queries
answer, `StoredRows` the shape of what is stored. A crash step is followed by recovery alone; the demo
statements that the server issues at every start are ordinary steps of a session without a transaction, and
`Restart` runs them for any list of demo tables.

**Operators** (`Executor`). Every Volcano operator is a class with the cursor, cache or hash map it has in the
source. `Meaning.Denote` gives a plan its meaning without operators: starting it either fails or yields a
stream of rows that ends in exhaustion or in the first error. `Init` and `Next` of every operator are proved
against that, from any state the operator may be in; `RunQuery` is proved to return `QueryResult`.
`PlanLaws`, `AggregationLaws` and `SortLaws` then say what whole plans deliver, operator by operator, in terms of
rows, evaluated expressions and values only; `ValueOrder`, `ExprLaws`, `NumberLaws` and `AggregateLaws` say what
comparisons, operators and aggregates are, `GroupKey`, `GroupingLaws` and `GroupByTypes` what a group is.

**Planner** (`Planner`, `Catalog`, `Names`, `Typing`, `SchemaLaws`, `Panics`, `AggregateRewrite`, `GroupedQuery`,
`CallNames`). Evaluation,
typing and naming of expressions, plan schemas, and the rewrite of aggregate calls into columns. Integers have 64
bits and wrap around, as in a release build; the one integer operation that panics in every build, the smallest
integer divided by -1, panics here too.

## Where the code does not keep what it is for

Each of these has an input in `Counterexamples` or `QueryCounterexamples`: a run from the first start of a server,
or a query; and a condition under which the code does do the right thing.

- ROLLBACK deletes rows by stored index. When another active transaction has a row behind one of the removed
  rows, the indices of that transaction go stale and its own rollback deletes rows of others
  (`UndisciplinedRollbackDeletesInnocentRow`). Undo lists stay right if and only if no such row exists
  (`RollbackKeepsOthersExactIff`); the theorems on rollback, live tables and isolation are about runs in which
  every ROLLBACK meets that condition (disciplined runs).
- The repository's README promises that recovery removes rows of transactions that never committed and keeps
  the committed ones. That holds for the first generation of a server. Recovery restores the SCN but not the
  counter of transaction ids, so ids are issued again, with three effects. A BEGIN hides recovered rows of the
  same id from every other session (`BeginHidesCommittedRow`), exactly when such a row was visible
  (`BeginHidesIff`). A committed row can be in its table after recovery and yet be shown to nobody
  (`RecoveredRowStaysHidden`). A later rollback of the same id makes recovery drop the row (`CommittedRowIsLost`).
  After any run the answers given after a restart are right if and only if the log is faithful
  (`RestartAnswersOwedIff`); they stay right through a statement if and only if BEGIN is not given the id of a
  row that would be shown, and COMMIT not one whose logged rows have another fate (`StatementSoundIff`,
  `GuardedRunIff`). Every run without a crash meets this (`FirstGenerationIsGuarded`). That the tables themselves
  hold the right rows is the weaker condition of `RecoveryIsExactIff`.
- Recovery does not restore the catalog, and CREATE TABLE accepts any columns over recovered rows. With more
  columns than the rows have values a query indexes out of bounds (`RecreatedWiderTablePanics`). INSERT checks
  the number of values but not their types, so an answer can hold a string in an INT column
  (`WrongTypeIsAnswered`). Stored rows keep fitting the catalog if and only if each INSERT and CREATE TABLE meets
  the condition `Harmless` (`StatementFitsIff`).
- A query panics when it divides the smallest integer by -1 (`DivisionPanics`), exactly when an evaluation
  reaches such a division (`DivisionPanicsIff`, `ProjectPanicsIff`, `FilterPanicsIff`), and it may panic when it
  sorts rows whose keys are not comparable. Over fitting rows it panics for no other reason (`AnswersFit`).
- Two different aggregate calls can have one generated name, as MIN('1') and MIN(1) do; the second one then
  reads the result of the first (`ClashGivesWrongAnswer`). Every call keeps a column of its own if and only if
  generated names are apart (`CallsKeptIff`); the rewrite is proved right when they are, and when no grouping
  column has the name of a call (`Nameable`), which holds whenever calls take columns or a star
  (`PlainQueryMeansItems`).
- Group keys are joined by commas. Commas in the strings of two grouping columns can merge two groups
  (`CommaMakesGroupsClash`, `TwoRowsOneGroup`). Without floats, keys tell value lists apart for all values of
  the declared types if and only if at most one grouping column is VARCHAR (`KeysTellApartIff`,
  `GroupsTellApartIff`).

## Model

| member | source | states |
|---|---|---|
| Executor.Executor.Init | src/executor.rs:16-18 | For every operator tree, from any mid-stream state: the error the plan's meaning starts with, or the whole stream of the plan pending again |
| Executor.Executor.Next | src/executor.rs:16-19 | Delivers the head of the pending stream; at its end None for ever, or its first error |
| Executor.SeqScanExecutor.Next | src/executor.rs:78-92 | Skips invisible rows; the pending stream is the visible rows from the cursor on |
| Executor.FilterExecutor.Next | src/executor.rs:123-134 | Delivers the next row of the child that passes, or the first error of child or predicate |
| Executor.ProjectExecutor.Next | src/executor.rs:165-175 | Delivers the evaluated items of the next child row, as a row without transaction stamps |
| Executor.LimitExecutor.Next | src/executor.rs:210-235 | Skips the offset, then delivers at most limit rows and pulls no row beyond them |
| Executor.SortExecutor.Init | src/executor.rs:266-292 | Drains the child and holds its rows as the library's stable sort orders them, from the first row on, or panics as that sort does, in a comparison or over its order |
| Executor.NestedLoopJoinExecutor.Init | src/executor.rs:345-358 | Starts left, then right, caches the right rows, pulls the first left row, with the errors in that order |
| Executor.NestedLoopJoinExecutor.Next | src/executor.rs:360-393 | Terminates and delivers the next pair that passes, left-major, an empty right side included |
| Executor.HashAggExecutor.Init | src/executor.rs:572-613 | Ends with one pending row per group in hash order, or one row for a global aggregation over nothing, or the first error |
| Executor.HashAggExecutor.ReadChild | src/executor.rs:579-601 | After draining the child the hash maps hold exactly its groups |
| Executor.HashAggExecutor.Absorb | src/executor.rs:582-600 | One more row: its group is created or updated and all other groups stay |
| Executor.HashAggExecutor.UpdateGroup | src/executor.rs:593-600 | Feeds one value to each aggregate of one group, left to right, up to the first argument that fails |
| Executor.HashAggExecutor.ListGroups | src/executor.rs:603-611 | Lists each group once; adds the single empty group only without rows and without grouping columns |
| Executor.HashAggExecutor.Next | src/executor.rs:615-631 | Delivers group values followed by final aggregates, group by group |
| Executor.BuildExecutor | src/executor.rs:644-690 | Builds a well-formed tree over exactly this plan, or reports the first schema it cannot compute |
| Executor.RunQuery | src/handler.rs:141-161 | Building, starting and draining a plan gives exactly the result its meaning prescribes, the first error included |
| MeaningLaws.LimitIsSlice | src/executor.rs:203-235 | OFFSET and LIMIT cut one slice of the rows; an error of the child shows only if the slice reaches it |
| MeaningLaws.FilterKeepsPassingRows | src/executor.rs:123-134 | A filter keeps the passing rows in order, up to the first row whose predicate fails |
| MeaningLaws.ProjectMapsRows | src/executor.rs:165-175 | A projection maps row by row, up to the first row with a failing item |
| MeaningLaws.JoinIsFilteredProduct | src/executor.rs:360-393 | The nested loop equals a filter over the left-major product, errors included; without condition it has \|L\|·\|R\| rows |
| MeaningLaws.ProductAt | src/executor.rs:360-393 | Pair (i, j) stands at place i·\|R\| + j: each pair is emitted once, left-major |
| PlanLaws.LeavesDeliver | src/executor.rs:35-97 | A scan delivers the visible rows of its table in storage order, or fails without the table; a query without a table has one row without columns |
| PlanLaws.FilterDelivers | src/executor.rs:118-134 | Over the meaning of its child WHERE delivers, in order, the rows on which the predicate is true, up to the first row on which it fails |
| PlanLaws.ProjectDelivers | src/executor.rs:160-175 | Over the meaning of its child a projection delivers the values of its items, row by row, up to the first row with a failing item, and ends as the first such item |
| PlanLaws.LimitDelivers | src/executor.rs:203-235 | Over the meaning of its child OFFSET and LIMIT deliver exactly the rows from the offset on, at most as many as the limit; the end of the child shows only past the limit |
| PlanLaws.JoinDelivers | src/executor.rs:344-393 | Over the meaning of both sides a join delivers all pairs, left row by left row, that pass the condition, up to the first pair on which it fails; a failing right side, or a left side that fails before its first row, keeps it from starting |
| PlanLaws.JoinFailsToStart | src/executor.rs:345-347 | A join fails to start as its left side does, else as its right side does |
| PlanLaws.UnaryFailsToStart | src/executor.rs:119-573 | Every other operator fails to start as its child does |
| AggregationLaws.AggDelivers | src/executor.rs:571-631 | Over the meaning of its child an aggregation delivers one row per group, with the aggregates of the argument values of its rows; one row for a global aggregation over nothing; it fails as the first row that fails does, in its first failing expression, else as the child does |
| SortLaws.SortDelivers | src/executor.rs:265-302 | Over the meaning of its child ORDER BY delivers its rows so that of two rows the earlier one is tied with the later or ahead of it in the first key that differs, ascending or descending, and tied rows keep their order; keys are evaluated expressions, compared as values |
| SortLaws.SortAnyKeys | src/executor.rs:265-302 | For any keys it delivers a rearrangement or panics; it panics only if a key does or keys are of mixed kinds, and does panic if the first key of one of several rows does; a failing child keeps it from starting |
| SortLaws.KeysCompare | src/executor.rs:281-284 | Keys are compared as values; keys of which neither is before the other count as equal |
| SchemaLaws.AnswerIff | src/handler.rs:141-161 | A query answers with rows exactly if its plan has a schema and delivers these rows to their end |
| SchemaLaws.FailureIff | src/handler.rs:141-161 | A query whose plan has a schema fails exactly as the plan does |
| Catalog.Schema.FindColIdx | src/catalog.rs:28-39 | The first matching column, or None exactly when none matches |
| Catalog.FindInJoin | src/planner.rs:240-246 | Over two schemas side by side a name resolves left first, else right, shifted by the left width |
| Names.ScannedColumnIsFound | src/planner.rs:209-224 | Each column of a scan is found under its bare name and under its table or alias, and under no other qualifier |
| Names.JoinedColumnIsFound | src/planner.rs:209-246 | In a join of two scans a qualified name finds its own side; a bare name the left side first |
| Names.JoinedColumnIsRead | src/executor.rs:377-384 | Under those names a joined row reads the values of the two rows it was joined from |
| Names.SplitAtLastDot | src/planner.rs:218-218 | A qualified name comes from one qualifier and one column only |
| Grouping.GroupsHoldStep | src/executor.rs:586-600 | Updating one entry of the hash maps by one keyed row makes them hold the groups of one row more |
| GroupingLaws.SizesAddUp | src/executor.rs:586-600 | Every child row is in exactly one group |
| GroupingLaws.CountStarAddsUp | src/executor.rs:572-631 | COUNT(*) over all output rows adds up to the number of child rows, the empty input included |
| GroupKey.GroupKeyIsInjective | src/executor.rs:561-569 | Equal keys mean equal value lists, for lists without floats that have commas in one column at most, any commas there |
| GroupKey.FloatTags | src/executor.rs:565-565 | Floats are told apart exactly by what they are displayed as, and from values of other kinds always |
| GroupKey.ShowIntReadsBack | src/executor.rs:564-564 | Printing an integer in decimal and reading it back gives the integer |
| GroupKey.CommaMakesGroupsClash | src/executor.rs:561-569 | A family of different value lists with one key: commas in the strings of two columns, whatever stands before, between and after |
| GroupByTypes.KeysTellApartIff | src/executor.rs:561-569 | Over all value lists without floats of given column types, NULLs and commas included, the key is injective if and only if at most one column is VARCHAR |
| GroupingLaws.GroupIsValueList | src/executor.rs:586-591 | Two rows are in one group if and only if their grouping values are equal, when commas occur in one column at most |
| GroupingLaws.OneRowPerValueList | src/executor.rs:572-631 | An aggregation that starts delivers exactly one row per distinct list of grouping values of its input, and no other list, when commas occur in one column at most |
| GroupByTypes.GroupsTellApartIff | src/executor.rs:572-631 | Grouping by all columns of a schema does so for all rows without floats of the declared types if and only if at most one column is VARCHAR |
| GroupByTypes.GroupedPlanShowsEachOnce | src/executor.rs:572-631 | A grouped plan over typed tables does so when no grouping expression is FLOAT and at most one VARCHAR |
| GroupByTypes.TwoRowsOneGroup | src/executor.rs:586-591 | Two rows with equal keys make one group, whatever their values |
| AggregateLaws.CountIsExact | src/executor.rs:430-434 | COUNT counts the values that are not NULL |
| AggregateLaws.SumIsExactIff | src/executor.rs:435-456 | SUM over integers and NULLs is NULL without integers, else the wrapped 64-bit sum, which is exact if and only if the true sum fits |
| AggregateLaws.AvgIsExact | src/executor.rs:457-521 | AVG divides that sum by the number of integers |
| AggregateLaws.MinIsLeast | src/executor.rs:480-491 | MIN is one of the inputs and a lower bound of them all, NULL without any |
| AggregateLaws.MaxIsGreatest | src/executor.rs:492-503 | MAX is one of the inputs and an upper bound of them all, NULL without any |
| AggregateLaws.OrderDoesNotMatter | src/executor.rs:428-525 | On integers and NULLs every aggregate is the same for every order of the inputs |
| NumberLaws.SumAndAvgOfAnything | src/executor.rs:435-521 | Over any values: NULL without one; else SUM is the left-to-right sum of the numbers, in floats from the first float on, and AVG divides it by the number of values that are not NULL; a first value that is no number stays |
| NumberLaws.ExtremesOfOneKind | src/executor.rs:480-503 | Over one comparable kind, strings, Booleans and floats included, MIN and MAX are the first of the values that bounds them all |
| NumberLaws.ExtremesAreGiven | src/executor.rs:480-503 | Over any values MIN and MAX are among the values, NULL without any |
| Sorting.CompareRowsIsLexicographic | src/executor.rs:279-289 | The comparator says Less exactly when, at the first key that differs, the row is before the other in that key's direction |
| Sorting.RowsReverse | src/executor.rs:279-289 | Turning the operands around reverses the comparator, ASC and DESC mixed |
| Sorting.RowsTransitive | src/executor.rs:279-289 | The comparator is transitive where each key column holds one comparable kind |
| Sorting.SortIsStable | src/executor.rs:276-289 | Insertion by that comparator is a sorted permutation that keeps tied rows in order |
| Sorting.StableSortIsUnique | src/executor.rs:276-289 | Two stable sorts of the same rows are equal |
| Sorting.LibrarySortDelivers | src/executor.rs:279-289 | For any library that keeps its promise ORDER BY delivers a permutation or panics, must panic when the first key of one of several rows does, and with comparable keys and no panicking comparison is stable, sorted and fully determined |
| Sorting.ComparePanicIsFromKey | src/executor.rs:279-289 | A comparison panics only as one of its sort keys does |
| Storage.EqualsIsCmpEqual | src/storage.rs:75-107 | `==` on values is exactly the Equal case of their partial order, for all kinds |
| ValueOrder.PartialCmpIs | src/storage.rs:75-107 | The partial order says Less, Equal and Greater exactly where the values are so: integers exactly, other numbers by their place as floats, strings and Booleans in their own order, nothing else |
| ValueOrder.StringsCompare | src/storage.rs:101-101 | A string comes before another exactly at the first differing character or as a proper prefix |
| Storage.CompareStringsTransitive | src/storage.rs:101-101 | The order of strings is transitive |
| ExprLaws.ComparisonsFitTogether | src/planner.rs:61-68 | The six comparison operators are consistent for all values, NULL, NaN and mixed kinds included |
| ExprLaws.OperatorsCompare | src/planner.rs:61-68 | Each comparison operator, under each spelling, decides exactly the order or equality of its two values |
| ExprLaws.OrdinaryComparisons | src/planner.rs:61-68 | On integers, strings, Booleans and floats by their place these are the ordinary comparisons; a NaN is unequal to everything and neither smaller nor larger |
| ExprLaws.TruthTables | src/planner.rs:103-104 | AND and OR by their truth tables, where everything but NULL and false is true |
| ExprLaws.FloatArithmeticIs | src/planner.rs:69-102 | With a float on either side the four operations are those of floats, the other side converted |
| ExprLaws.OtherOperandsFail | src/planner.rs:69-105 | Arithmetic on anything but two numbers fails, and so does every unknown operator |
| ExprLaws.OperandsInOrder | src/planner.rs:45-49 | Operands are evaluated left to right; the first that fails decides |
| ExprLaws.IntegerArithmetic | src/planner.rs:69-89 | Integer sums, differences and products are exact if and only if they fit 64 bits; a difference takes a sum back even after wrapping |
| ExprLaws.IntegerDivision | src/planner.rs:90-97 | Division fails exactly for zero, panics exactly for the smallest integer over -1, and else rounds toward zero |
| Typing.EvalFits | src/planner.rs:30-58 | Evaluation over a fitting row never indexes out of bounds and has the type `get_expr_type` computes |
| Typing.OperatorFits | src/planner.rs:61-107 | Each operator's result has the operator's type when the operands have theirs |
| Typing.AggregateHasType | src/planner.rs:140-154 | Each aggregate's value has the aggregate's type |
| SchemaLaws.EvaluableIsTyped | src/planner.rs:109-157 | The types turn nothing away that can be evaluated: an expression with a value on some row of the declared types has a type |
| SchemaLaws.TypesOfExpressions | src/planner.rs:109-124 | The types of literals and columns, NULL as VARCHAR |
| SchemaLaws.TypesOfOperators | src/planner.rs:125-139 | The types of operators from those of their operands, and where they have none |
| SchemaLaws.AggTypeIs | src/planner.rs:255-268 | Which aggregates have a type, and which one |
| SchemaLaws.ScanSchemaIs | src/planner.rs:209-224 | A scan has the columns of its table, qualified by alias or table unless their names have a dot already |
| SchemaLaws.SchemasPassThrough | src/planner.rs:225-246 | Filters, limits and sorts have the columns of their child, a join those of both sides |
| SchemaLaws.ProjectSchemaIs | src/planner.rs:228-239 | A projection has its items as columns, under their aliases, exactly if all have types |
| SchemaLaws.AggSchemaIs | src/planner.rs:247-275 | An aggregation has its grouping expressions, then its calls, as columns under their names, exactly if all have types |
| Typing.PlanFits | src/planner.rs:206-277 | Schema soundness: over fitting tables every row of every plan fits the plan's schema, and no expression, sort keys included, indexes out of bounds |
| Typing.SortFits | src/executor.rs:279-289 | Sorting fitting rows gives fitting rows, or a panic that is not an index out of bounds |
| StoredRows.StatementFitsIff | src/handler.rs:89-139 | A statement keeps stored rows fitting their tables if and only if it is harmless |
| StoredRows.HarmlessRunFits | src/handler.rs:51-171 | Over any harmless run, crashes included, stored rows fit the catalog |
| StoredRows.WidthsNeedNoCare | src/handler.rs:115-122 | In a first generation every run is harmless to widths, and catalog and storage know the same tables |
| Panics.AnswersFit | src/handler.rs:141-161 | After a harmless run, crashes included, no query indexes out of bounds, other panics have their reason, and answers fit their own schema, types included if the run was harmless to them |
| Panics.DenoteAllowed | src/executor.rs:644-690 | For every plan over any tables a division overflows only if the plan divides, and a sort fails over its order only if its rows are not comparable |
| Panics.PlainQueriesNeverPanic | src/planner.rs:35-36 | In a first generation a query without division and ORDER BY never panics, whatever was inserted and whether or not the plan has a schema |
| Panics.DivisionPanicsIff | src/planner.rs:90-97 | An expression panics by overflow if and only if it reaches a division of the smallest integer by -1 |
| Panics.ProjectPanicsIff | src/executor.rs:165-175 | SELECT items so panics if and only if some row's items reach such a division while all rows before it evaluate, or its input does |
| Panics.FilterPanicsIff | src/executor.rs:123-134 | WHERE so panics in the same way |
| Panics.TypedKeysCompare | src/executor.rs:279-289 | Sort keys of one declared type, without NULL and NaN, are comparable |
| QueryCounterexamples.DivisionPanics | src/planner.rs:90-97 | A run: insert the smallest integer and -1, select their quotient, and the query panics |
| QueryCounterexamples.WrongTypeIsAnswered | src/handler.rs:115-136 | A run: insert a string into an INT column, and the answer holds it under the type INT |
| Panics.BoundPlansAreKnown | src/planner.rs:507-532 | The plans the binder builds have known aggregates only |
| Counterexamples.RecreatedWiderTablePanics | src/recovery.rs:98-105 | A table created again with a second column after a crash: selecting that column panics |
| AggregateRewrite.AggregateList.Extract | src/planner.rs:601-625 | Rewrites an expression and extends the shared list as the specification function says |
| AggregateRewrite.BindProjection | src/planner.rs:507-532 | The bound plan is a projection over an aggregation, or a projection, as the specification function says |
| AggregateRewrite.ExtractionIsComplete | src/planner.rs:601-625 | No aggregate call is left, every call has a column of its name, the list grows only at its end, under fresh names, by calls of the expression |
| AggregateRewrite.ItemsAreComplete | src/planner.rs:510-515 | The same for all select items with one shared list, aliases kept |
| AggregateRewrite.ClashingCallVanishes | src/planner.rs:607-612 | Of two calls with one generated name only the first gets a column |
| AggregateRewrite.LiteralsClash | src/planner.rs:159-167 | MIN('1') and MIN(1) have one generated name |
| AggregateRewrite.HasAggFuncsIff | src/planner.rs:591-599 | An expression has aggregates exactly if it contains a call of one, anywhere |
| AggregateRewrite.IsAggregateQueryIff | src/planner.rs:507-507 | A query is grouped exactly if it has GROUP BY or some item contains an aggregate call |
| CallNames.CallNameIff | src/planner.rs:607-607 | Two calls have one generated name exactly if they are of one function and their arguments have one name |
| CallNames.BinaryNameIff | src/planner.rs:159-167 | A column's name is its own; the name of a binary expression over columns tells its operator and both operands |
| CallNames.LiteralNames | src/storage.rs:24-34 | The names of literals: NULL, true, false, a string as it is, an integer in decimal, different integers by different names |
| GroupedQuery.CallsKeptIff | src/planner.rs:507-515 | Every aggregate call of a query keeps a column of its own if and only if different calls have different generated names |
| GroupedQuery.RewrittenExprMeans | src/planner.rs:601-625 | A rewritten expression on a group's output row equals the original with each call read as the aggregate over the group |
| GroupedQuery.RewriteMeansSame | src/planner.rs:509-526 | The same for all select items, with the same first error |
| GroupedQuery.GroupedPlanMeansItems | src/planner.rs:507-526 | The bound plan of a grouped query delivers, group by group, its select items read over the rows of the group |
| CallNames.PlainQueryMeansItems | src/planner.rs:507-526 | The same with no condition on generated names, for every grouped query by columns whose calls take columns or a star |
| QueryCounterexamples.ClashGivesWrongAnswer | src/planner.rs:507-526 | The query SELECT MIN('1'), MIN(1) answers '1', '1' where its items over the group are '1' and 1 |
| Transactions.TransactionManager.constructor | src/tx.rs:62-73 | A manager opened on a log: clock 0, ids from 1, nothing buffered |
| Transactions.TransactionManager.Begin | src/tx.rs:76-86 | Issues the next id as active with an empty undo segment and buffers its Begin |
| Transactions.TransactionManager.RecordInsert | src/tx.rs:89-108 | Adds one undo and one redo record and changes nothing else |
| Transactions.TransactionManager.Commit | src/tx.rs:110-119 | Ticks the clock, stamps the transaction with it, appends its Commit and flushes the buffer to the log |
| Transactions.TransactionManager.Rollback | src/tx.rs:121-129 | Marks the transaction, appends its Rollback under the unchanged clock and flushes |
| Transactions.TransactionManager.LgwrFlush | src/tx.rs:132-150 | The loop appends the whole buffer to the log, in order, and empties it |
| Handler.DatabaseState.Handle | src/handler.rs:51-171 | Every statement on the shared objects has exactly the effect and response of the specification function |
| Handler.DatabaseState.UndoAndRollBack | src/handler.rs:71-82 | The reverse removal loop with its bounds test equals undo of the whole segment |
| Handler.DatabaseState.Insert | src/handler.rs:110-138 | The row loop keeps the rows before a rejected one, in table, undo and redo alike |
| Recovery.Recover | src/recovery.rs:12-96 | The replay and filter loops over the shared objects compute the recovered tables, statuses and clock |
| Recovery.RetainRows | src/recovery.rs:81-94 | Keeps, in order, the system rows and the rows of transactions that committed and did not roll back |
| Durability.RecoveredState | src/recovery.rs:47-96 | Recovery into any tables, for any log: what is there and what is logged, kept for system rows and rows of ids that commit and never roll back; the clock one above the largest SCN; nothing else of the manager changes |
| Lifecycle.StepKeeps | src/tx.rs:76-129 | Every step keeps: ids are 1 to next-1, exactly committed ones have a commit SCN at or below the clock, sessions hold distinct active transactions |
| Lifecycle.RunKeeps | src/tx.rs:76-129 | Over every run without a crash that invariant holds, and finished transactions stay finished |
| Lifecycle.SnapshotIsStableInRuns | src/tx.rs:157-174 | For a captured SCN visibility of any other transaction is the same in every later state |
| Lifecycle.FreshSelectSeesCommitted | src/tx.rs:157-174 | A SELECT that starts now sees exactly system rows, own rows and committed rows |
| Lifecycle.RolledBackStaysInvisible | src/tx.rs:163-173 | No session ever holds a rolled-back transaction again and no reader sees rows it left behind, disciplined or not |
| Lifecycle.AbandonedStaysInvisible | src/server.rs:43-58 | A client that goes away inside a transaction leaves it active until the next crash; no session ever holds it and its rows are visible to nobody |
| Lifecycle.IdsAreNeverReissued | src/tx.rs:76-77 | No two BEGINs of one run without a crash get the same id |
| WriteAhead.InsertKeepsAcceptedRows | src/handler.rs:115-138 | A multi-row INSERT keeps exactly the rows before the first rejected one and fails exactly if there is one |
| WriteAhead.FailureLeavesAcceptedRows | src/handler.rs:51-171 | A failing statement changes nothing, but for rows an INSERT had accepted; only INSERT and ROLLBACK touch stored rows |
| StatementLaws.LowerIff | src/handler.rs:90-100 | Table names are taken to be the same exactly if they differ in the case of letters only |
| StatementLaws.CreatedUnderAnyCasing | src/handler.rs:89-139 | After CREATE TABLE an INSERT under any casing of the name reaches the table, and it cannot be created again; under another name neither holds |
| StatementLaws.RowAcceptedIff | src/handler.rs:116-131 | A row is stored exactly as its expressions evaluate; it is rejected for its width, else for the first expression that fails |
| StatementLaws.LiteralsAreStored | src/handler.rs:123-136 | A row of literals of the right width is stored as it is |
| StatementLaws.ResponsesAreTrue | src/handler.rs:55-139 | What a client is told is what happened: ids, statuses, commit SCN, tables and row counts |
| StatementLaws.SucceedsIff | src/handler.rs:55-139 | Exactly which statements succeed, and the error of those that do not |
| WriteAhead.StatementTrail | src/tx.rs:76-150 | In any state log and buffer together grow by what the statement must log; the log grows only when a transaction ends, the clock only on commit |
| WriteAhead.StatementLogs | src/tx.rs:76-150 | Each statement keeps the log invariant: one Begin, Inserts, one terminal record per transaction, active ones only in the buffer |
| WriteAhead.LogAndBufferAreHistory | src/tx.rs:76-150 | In every run without a crash the disk log followed by the buffer is the whole history of records, and the log invariant holds |
| WriteAhead.FinishedIsOnDisk | src/tx.rs:110-150 | A finished transaction has its Begin, all its Inserts and then one terminal record on disk |
| Durability.BootedRows | src/recovery.rs:49-96 | Recovery in closed form, for any log: the logged rows whose id commits and never rolls back, in log order |
| Durability.RecoversCommitted | src/recovery.rs:49-96 | Recovering a well-formed log rebuilds exactly the committed rows of log and lost buffer together |
| Durability.CrashKeepsExactlyCommitted | src/recovery.rs:12-115 | All-or-nothing durability: a crash after any step of a first generation keeps, per table, exactly the rows of committed transactions, in insertion order |
| Durability.FirstSelectSeesRecoveredRows | src/recovery.rs:75-76 | After a crash in the first generation every recovered row is visible to the first SELECT of any session |
| RollbackDiscipline.RollbackIsExact | src/handler.rs:71-80 | With an exact undo list ROLLBACK deletes exactly the transaction's rows and keeps all others in order |
| RollbackDiscipline.PositionsKept | src/handler.rs:73-79 | Removing one transaction's rows leaves another's positions alone if and only if none of its rows stands behind a removed one |
| RollbackDiscipline.RollbackKeepsOthersExactIff | src/handler.rs:73-79 | A rollback leaves all undo lists exact if and only if it is disciplined |
| DisciplinedRuns.DisciplinedRunKeeps | src/handler.rs:69-136 | In every disciplined run each active transaction's undo list is, per table, the increasing list of its positions, and live tables agree with the log |
| DisciplinedRuns.RollbackRemovesOwnRows | src/handler.rs:69-84 | In every disciplined run ROLLBACK removes exactly the rows of its transaction, in every table |
| DisciplinedRuns.RecoveredIsCommittedPartOfLive | src/recovery.rs:49-96 | After a disciplined run and a crash each recovered table is the committed part of the live one, order, values and stamps included |
| Restart.RestartAnswers | src/server.rs:25-33 | From any state: after crash, recovery, demo statements and CREATE TABLE a scan sends the visible recovered rows, then the demo rows of the table |
| Restart.RestartAnswersCommitted | src/server.rs:25-33 | In a first generation these are exactly the committed rows, in insertion order, then the demo rows |
| Restart.DemoIsLoaded | src/handler.rs:173-192 | The demo statements create their tables over recovered rows and append to them, and change nothing else |
| Restart.CrashLosesOnlySystemRows | src/server.rs:25-33 | After a disciplined run a scan answers the same before the crash and after it, but for rows inserted outside of transactions, and the demo rows loaded anew |
| Isolation.PlansSeeOnlyVisibleRows | src/executor.rs:78-91 | The meaning of every plan depends only on the visible rows of each table and the hash order |
| Isolation.FreshScanDeliversCommitted | src/handler.rs:141-150 | A scan that starts now delivers, in storage order, the system rows, own rows and committed rows |
| Isolation.QuietStepIsInvisible | src/handler.rs:51-171 | One BEGIN, INSERT or ROLLBACK inside another session's transaction leaves every query's response as it was |
| Isolation.QueriesAreIsolated | src/handler.rs:141-161 | The same for any number of such steps of any other sessions, after any disciplined run, for every plan |
| Generations.EveryRunIsInAGeneration | src/tx.rs:76-150 | Over any number of crashes: log and buffer are ordered by SCN, each Insert and terminal record belongs to a transaction begun before it, sessions hold open transactions |
| Generations.ScnsIncreaseAcrossCrashes | src/recovery.rs:75-76 | Over any number of crashes SCNs never decrease along the disk log, each Commit is above all records before it, no two commits share an SCN |
| IdReuse.IdsAreFreshAfterCrashIff | src/tx.rs:70-70 | A crash leaves fresh ids if and only if nothing was in the log |
| IdReuse.FirstIdIsReissued | src/tx.rs:70-77 | After a crash with a non-empty log the first BEGIN issues id 1 again, the id the log begins with |
| IdReuse.ReissuedRollbackErases | src/recovery.rs:81-94 | Rolling that transaction back erases, at the next recovery, every row of the old transaction 1 |
| IdReuse.RecoveryIsExactIff | src/recovery.rs:49-96 | For the log of any run, recovery puts exactly the rows whose own transactions committed into the tables if and only if the log is unanimous about each id |
| IdReuse.RecoveryOfLogIsExactIff | src/recovery.rs:49-96 | The same, table contents only, for any log in which records follow the order and shape of a run |
| IdReuse.BegunOnceIsUnanimous | src/recovery.rs:49-96 | A log in which no id was begun twice is unanimous |
| CrashSafety.RestartShows | src/recovery.rs:47-96 | From any state: after a restart a scan sends the logged rows whose id never rolled back and whose last record but Inserts is a Commit, then the demo rows |
| CrashSafety.RestartAnswersOwedIff | src/recovery.rs:47-96 | In every run, crashes included, a restart answers every scan with the rows whose own transactions committed if and only if the log is faithful |
| CrashSafety.RecordFaithfulIff | src/tx.rs:76-129 | One record more keeps a log faithful if and only if a BEGIN is not given the id of a shown row, and a COMMIT no id whose logged rows have another fate |
| CrashSafety.StatementSoundIff | src/handler.rs:51-171 | In any state of any run a statement keeps answers after a restart right if and only if it passes that guard, checked on log and buffer before it |
| CrashSafety.GuardedRunIff | src/handler.rs:51-171 | Over any number of crashes the log is sound at every point of a run if and only if every BEGIN and COMMIT passed its guard |
| CrashSafety.GuardedRunIsCrashSafe | src/recovery.rs:12-115 | A guarded run may crash at any point, any number of times: scans then answer exactly the rows whose own transactions committed |
| CrashSafety.FirstGenerationIsGuarded | src/tx.rs:70-77 | Every run without a crash is guarded |
| CrashSafety.BegunOnceIsFaithful | src/recovery.rs:47-96 | A log in which no id was begun twice is faithful |
| CrashSafety.BeginHidesIff | src/tx.rs:76-79 | In every run a BEGIN changes what another session is sent for a table if and only if that session saw a row with the id the BEGIN is given |
| Counterexamples.BeginHidesCommittedRow | src/tx.rs:76-79 | A run with one crash: a committed row is read, another session begins, and the row is in no answer |
| Counterexamples.RecoveredRowStaysHidden | src/recovery.rs:49-53 | A run with two crashes: a unanimous log, the committed row back in its table, and no reader is shown it |
| Counterexamples.UndisciplinedRollbackDeletesInnocentRow | src/handler.rs:73-79 | A run from the first start: after one rollback another client inserts and reads a row, and the second rollback deletes it |
| Counterexamples.StaleUndoDeletes | src/handler.rs:73-79 | The same for any two transactions with one row each in a table |
| Counterexamples.CommittedRowIsLost | src/recovery.rs:75-94 | A committed row survives the first restart and is gone after the second |

## Left out

- SQL parsing and the rest of binding: the model starts from statements, expressions and plans.
- TCP, frames, the client, banners, traces, `/status` and the printing of tables. `/crash` is the crash step.
- The contents of the demo data: the theorems hold for any list of demo tables with different lower-case names.
- The log as a file of JSON lines: it is a sequence of records, writes succeed, and lines that cannot be read
  back (a NaN in a row, a partly written line) do not occur.
- Float arithmetic: floats are bit patterns with operations left open, so every theorem holds for any of them;
  grouping by a float column is therefore not claimed to be injective.
- Builds that check integer overflow: sums, differences, products and SUM wrap around here, as in a release build,
  where a checking build panics. SCNs, ids, positions and lengths are unbounded, and COUNT and AVG are stated for
  fewer than 2^63 values.
- Full Unicode lower case in table names: `Lower` maps ASCII letters only.
- The order in which a hash map lists its keys: each query is given one arbitrary order for each set of keys.
- The algorithm of the library sort: it is any function that keeps the promise `SortPromise`; which comparisons it
  makes, and so whether it panics when only some of them do, is left open.
- AggState: its updates in place are updates of values held in a map, so aliasing of states is not modelled.
- The operator interface is a datatype of the eight operators rather than an open trait; `close` is left out,
  since it only frees memory.
- Panics of the serving thread are special error values, so what a poisoned lock does afterwards is not
  modelled.
- Mutexes and threads: statements are atomic steps, as the lock per statement makes them.
- CrashKeepsExactlyCommitted: for the first generation only; later generations are `RestartAnswersOwedIff` and
  `GuardedRunIff`.
- FirstSelectSeesRecoveredRows: for the first generation only; `RecoveredRowStaysHidden` is why.
- QueriesAreIsolated: for disciplined runs of the first generation; without discipline rows of others may vanish,
  and after a crash two transactions may share an id.
- GroupedPlanMeansItems: select items may use only columns that are grouping columns by name; other columns are
  read by name on the output row and are not given a meaning over the group.
