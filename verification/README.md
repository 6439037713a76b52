# Proofs about the sync engine

This project models the parts of the repository whose correctness is least visible in any single function, and proves what
they are for:

- **The copy-on-write B+ tree set.** `SortedSet`, `BTreeModel` and `BTreeRefinement` show on plain values that insertion and
  deletion, with all their splitting, shifting and merging, are insertion into and removal from a sorted sequence.
  `BTreeHeap` has the nodes on the heap, changes them in place as the code does, and proves that sets that share nodes after
  `clone` never notice each other; `BTreeRuns` is about runs over any number of them. `BTreeIterator` proves the iterators with their explicit path stacks.
- **The compiler from queries to SQL.** `Zql` says what a query denotes, `SqlTree` what an SQL tree with aliases evaluates to,
  `Compiler` is the compiler and `CompilerProof` its correctness, down to the freshness of the generated aliases.
  `QueryMeaning` writes out what a query denotes, and `CompiledMeaning` what its SQL hands out, without the functions that define
  these. `CompilerScope` says what the compiler leaves out, `CompilerCases` shows queries that this makes a difference to, and
  `JunctionOrder` why the order of a junction's edges makes none. `SqlFormat` proves the numbering of placeholders, `SqlConvert`
  exactly which values arrive in the database through text and casts.
- **Invalidation of subscriptions and watches.** `ScanIterator` and `Subscriptions` (with `KeyOrder` and `BinarySearch`):
  a subscription that is not rerun after a commit is a cache that agrees with recomputing. `Watches`: what watchers are told
  and what they make of it. `SubscriptionsManager`: commits, runs and callbacks of overlapping fires as a state machine, with
  invariants over every order of them. `DeliveryOrder`: exactly which orders of callbacks leave a watcher's copy right.
- **Exactly-once mutations.** `ProcessMutations`: interleaved handlers, overlapping pushes, failures, lost acknowledgements.
- **The t-digest.** `TDigest`: conservation, the bound on the number of centroids, monotone quantiles and shares.
- **Two concurrent loops.** `ProcessScheduler` and `ConnectionLoop`, one method per stretch of code between two awaits, with
  invariants over every order of events and a measure that shows progress.
- **Transformations of queries.** `AstTransform`, `AstNormalise`, `AstNormaliseProof` and `NormalForm`: the normal form means
  the same and can be compiled; `FlattenExactly`: exactly when flattening keeps meanings. `NameMapper`: renaming
  there and back is the identity; `MappedNames`: what a name is mapped to, in a schema and in a whole query.
- **Order-preserving strings for doubles** (`FloatEncoding`) **and the log batcher** (`DatadogLogSink`).

`Wrappers` holds the option type, `Lists` facts about permutations and about places in lists. `dafny verify dfyconfig.toml` checks the whole project.

Classes stand for the program's objects, with methods that change their fields; each method is tied to a function of the old
state, and what the program promises is proved about these functions. Ghost fields hold histories (all runs, all requests, what
was logged) over which the statements about whole runs are made. Exceptions are results (`None`, `Failure`).

Where a promise does not hold everywhere, the condition under which it does is part of the statement, and a lemma shows a case
in which it fails:

- A scan with a limit below one is unlimited for the generator and empty for the matching (`Subscriptions.ReliableExactly`).
- Fires of mutations that are not awaited overlap, and a watcher whose diffs come out of commit order keeps a wrong copy
  (`DeliveryOrder.OvertakenPair`, `DeliveryOrder.LateInitialValues`; exactly when: `DeliveryOrder.SafeExactly`,
  `DeliveryOrder.MirrorsExactly`). Subscriptions are not affected as long as no commit comes between a run and its callback
  (`SubscriptionsManager.SubscriptionsManagerImpl.AllCurrent`).
- Flattening drops empty ANDs and ORs, also where they are not neutral (`NormalForm.EmptyOrIsDropped`; exactly when:
  `FlattenExactly.SafeExactly`), and, unlike its comment suggests, removes only one level of nesting per call (`AstNormalise.OneLevel`).
- Equal raw values that need different conversions share one placeholder (`SqlConvert.SameStringTwice`). Null for an array
  column arrives as an empty array, and an array of JSON with a string in it does not arrive (`SqlConvert.DoNotArrive`; exactly
  when a query's values arrive: `SqlConvert.QueryArrivesExactly`).
- A relationship with the name of a column is lost in a junction (exactly when: `CompilerProof.JunctionMeans`; a case:
  `CompilerCases.RelationshipIsLost`).
- The compiler ignores bounds and what restricts a junction's own edge (`CompilerScope.CompileHears`; cases:
  `CompilerCases.StartIsLost`, `CompilerCases.EdgeIsLost`).
- The right tail of a t-digest always answers the maximum (`TDigest.RightTail`).
- An empty server name is no renaming to one part of the name mapper and a name to the other (`NameMapper.EmptyNameDisagrees`;
  exactly when that matters: `NameMapper.ShortcutAgrees`).
- A closed connection loop never ends exactly if it waits for a connection, or for a call of `send` with no watchdog timer and no
  call that is still to become visible (`ConnectionLoop.Run`, `ConnectionLoop.WindUp`; both happen: `ConnectionLoop.AllInUse`,
  `ConnectionLoop.NeverUsed`). With one connection its records are never pruned (`ConnectionLoop.NothingForgotten`).
- A NaN with its sign bit set does not survive encoding (`FloatEncoding.RoundTrip`).

## Model

| member | source | states |
|---|---|---|
| `SortedSet.InsertIsInsertion` | packages/shared/src/btree-set.ts:39-53 | The specification of `add`: the sorted set stays sorted, has the key, and every element that is not equal to the key is neither lost nor invented. |
| `SortedSet.RemoveIsRemoval` | packages/shared/src/btree-set.ts:65-67 | The specification of `delete`: the sorted set stays sorted and loses exactly the elements equal to the key. |
| `SortedSet.LowerBoundUnique` | packages/shared/src/btree-set.ts:612-645 | There is only one index that separates the keys below from the others, so every search that finds such an index finds the same one. |
| `BTreeRefinement.AddRefines` | packages/shared/src/btree-set.ts:39-53 | `add` with leaf and inner splits, shifting to a sibling and growth of the root is insertion into the sorted set; equal leaf depth, at most 32 keys per node, no empty inner child, `keys[i]` = greatest key of child i and strict order hold afterwards; `size` grows exactly if the key is new. |
| `BTreeRefinement.DeleteRefines` | packages/shared/src/btree-set.ts:69-88 | `delete` with nested merges, dropped children and the collapse of the root is removal from the sorted set, with the same shape guarantees; it answers whether the key was there. |
| `BTreeRefinement.GetRefines` | packages/shared/src/btree-set.ts:304-312 | Looking a key up from the root finds exactly the element that compares as equal. |
| `BTreeRefinement.SetInserts` | packages/shared/src/btree-set.ts:438-499 | `set` on any subtree: the node and its new right sibling together hold the keys with the new one inserted. |
| `BTreeRefinement.DeleteRemoves` | packages/shared/src/btree-set.ts:528-564 | `delete` on any subtree removes the key and nothing else, through the right-to-left clean-up scan. |
| `BTreeRefinement.NeverShiftsRight` | packages/shared/src/btree-set.ts:464-471 | Shifting an entry to the right sibling never happens: the guard is false on every well-formed node, so room is only ever made on the left. |
| `BTreeRefinement.SplitSide` | packages/shared/src/btree-set.ts:480-498 | When a full inner node splits, comparing greatest keys puts the new child into the half where its position belongs. |
| `BTreeHeap.BTreeSet.Add` | packages/shared/src/btree-set.ts:39-53 | On the heap: this set becomes its old elements with the key inserted, all other sets keep elements, order and size although nodes are shared; only nodes that this set owns (or new ones) are written, and marks on shared nodes. |
| `BTreeHeap.BTreeSet.Delete` | packages/shared/src/btree-set.ts:65-88 | On the heap: this set loses exactly the key, the answer says whether it was there, and no other set changes. |
| `BTreeHeap.BTreeSet.Clone` | packages/shared/src/btree-set.ts:27-33 | `clone` allocates no node: afterwards both sets have the same elements and neither owns a node; all nodes of the old set count as shared. |
| `BTreeHeap.BTreeSet.CloneThenRun` | packages/shared/src/btree-set.ts:27-33 | After `clone`, any interleaving of additions, removals and clearings on the two sets: each ends up with the common elements changed by its own changes only, and every third set is untouched. |
| `BTreeRuns.Run` | packages/shared/src/btree-set.ts:27-33 | Any number of sets, changed and cloned in any order: each holds what its own history of changes, its original's up to the clone included, makes of the elements it started with; sets outside the run keep theirs; and a node that was frozen when the run began (shared, or below a shared one) is read, through its keys and children, as the same tree ever after, which is what an iteration over a shared tree depends on. |
| `BTreeRuns.ReadsView` | packages/shared/src/btree-set.ts:27-33 | What is read through the keys and children of a frozen node, all the way down, is the tree that it stood for when it was frozen. |
| `BTreeHeap.BTreeSet.Clear` | packages/shared/src/btree-set.ts:22-25 | The set is empty afterwards, and no other set notices. |
| `BTreeHeap.BTreeSet.Get` | packages/shared/src/btree-set.ts:35-37 | The element that compares as equal, or nothing; nothing is changed. |
| `BTreeHeap.BTreeSet.Has` | packages/shared/src/btree-set.ts:55-57 | True exactly if an element compares as equal. |
| `BTreeHeap.BTreeSet.CollapseRoot` | packages/shared/src/btree-set.ts:77-86 | While an inner root has at most one child, that child becomes the root; that a node is shared is passed down on the way, so what was reachable from elsewhere stays protected. |
| `BTreeHeap.Forest.StillValid` | packages/shared/src/btree-set.ts:27-33 | Why work on one set leaves the others valid: it wrote only nodes that set owned, and marks on shared nodes only grow. |
| `BTreeHeap.Forest.Share` | packages/shared/src/btree-set.ts:27-33 | Marking the root is enough to freeze everything below it. |
| `BTreeHeap.IndexOf` | packages/shared/src/btree-set.ts:612-645 | Binary search: the lower bound, or its complement when there is no match and the caller asked for that. |
| `BTreeHeap.Node.Set` | packages/shared/src/btree-set.ts:314-342 | `set` of a leaf or an inner node in place, on private nodes only: the result is that of the pure function, frozen nodes keep their contents. |
| `BTreeHeap.Node.Delete` | packages/shared/src/btree-set.ts:528-564 | `delete` in place, on private nodes only. |
| `BTreeHeap.Node.ShiftFromFull` | packages/shared/src/btree-set.ts:447-472 | Room for a full child, made by moving an entry to a (privately cloned) sibling. |
| `BTreeHeap.Node.SplitOffRightSide` | packages/shared/src/btree-set.ts:352-356 | The left half stays, the right half is a new private node. |
| `BTreeHeap.Node.PrivateChild` | packages/shared/src/btree-set.ts:541-544 | A shared child is replaced by a private copy before it is written; the other children stay. |
| `BTreeHeap.Node.Clone` | packages/shared/src/btree-set.ts:414-420 | A private copy of a shared node; its children become shared. |
| `BTreeHeap.Node.TryMerge` | packages/shared/src/btree-set.ts:566-586 | Two neighbours that fit into one node are merged; sharing of the right one is passed on to what it held. |
| `BTreeHeap.Node.MergeSibling` | packages/shared/src/btree-set.ts:588-607 | Entries of the right sibling are appended, marked as shared if it was, and the two children that meet are merged in turn. |
| `BTreeIterator.AscendingIterator.ValuesFrom` | packages/shared/src/btree-set.ts:135-186 | The iterator starts with exactly the keys on the requested side of the start key still to come; an exclusive start above a root leaf is decided by an arbitrary answer of the comparator, as in the code. |
| `BTreeIterator.AscendingIterator.Next` | packages/shared/src/btree-set.ts:160-186 | Each call yields the first key to come and leaves the others, through the stack of siblings and indices; after the last key it stays at the end. |
| `BTreeIterator.DescendingIterator.ValuesFromReversed` | packages/shared/src/btree-set.ts:188-239 | The same for iteration downwards from a greatest key, or from the maximum. |
| `BTreeIterator.DescendingIterator.Next` | packages/shared/src/btree-set.ts:210-239 | Each call yields the last key to come and leaves the others. |
| `BTreeIterator.AscendingSelects` | packages/shared/src/btree-set.ts:135-158 | What a start key selects: the stored keys above it (or equal, if inclusive), in order. |
| `BTreeIterator.UpToSelects` | packages/shared/src/btree-set.ts:188-208 | What a greatest key selects, likewise. |
| `BTreeIterator.FindPath` | packages/shared/src/btree-set.ts:241-262 | The path to the leaf of a key: the keys left of the path, in the leaf and right of it are all keys; no path exactly when the key is above everything in an inner root. |
| `BTreeIterator.Collect` | packages/shared/src/btree-set.ts:135-186 | Running an iterator to its end visits every key from the start on, once, in order. |
| `CompilerProof.CompileMeans` | packages/z2s/src/compiler.ts:67-84 | Compiling a query and evaluating the SQL tree in any environment gives the rows that the query denotes: filters under three-valued logic, EXISTS and NOT EXISTS, order, limit, nested relationships, junction edges (ordered or not) as the join of their two hops; for queries without bounds, without filters and limits on junction edges themselves, and without a name that is used twice behind them. |
| `CompiledMeaning.RelatedCompiledAs` | packages/z2s/src/compiler.ts:193-275 | Every relationship is compiled under its alias, and to a single row exactly if the format has, under that alias, a format that says so; its limit is 0, or 1, or its own accordingly. |
| `CompiledMeaning.CompileHandsOut` | packages/z2s/src/compiler.ts:67-84 | What the SQL hands out, in terms of query and format alone: the selected rows (a list, or at most the first one), each with its columns, and under every alias the result of that relationship under the format's entry for the alias; a later relationship of the same alias wins, and any wins over a column. |
| `CompiledMeaning.SelectHandsOut` | packages/z2s/src/compiler.ts:86-126 | The same for every nested query, under any enclosing aliases and correlation, and so at every depth. |
| `QueryMeaning.SelectedMeans` | packages/z2s/src/compiler.ts:86-126 | The rows of a query: the places in the table of exactly those rows that the filter, the correlation and the bound let through, in their order, arranged by the order if there is one, and the first of them as the limit says. |
| `QueryMeaning.ConditionMeans` | packages/z2s/src/compiler.ts:286-362 | Truth under three-valued logic: AND is true if all parts are and false if one is, OR the other way round, EXISTS is true exactly if a correlated row is selected and never unknown. |
| `QueryMeaning.LinkedMeans` | packages/z2s/src/compiler.ts:341-362 | A correlation is true exactly if each pair of its fields is equal. |
| `QueryMeaning.InOrderMeans` | packages/z2s/src/compiler.ts:152-178 | The order is that of the values of the named columns in the given directions; without an order rows stay as they are. |
| `QueryMeaning.RelatedUnder` | packages/z2s/src/compiler.ts:193-204 | What a row has under a name: the last relationship of that alias, with the format's entry for the alias, and nothing if the format has none. |
| `QueryMeaning.DirectMeans` | packages/z2s/src/compiler.ts:262-275 | A relationship that is no junction edge has the result of its correlated query. |
| `QueryMeaning.JunctionMeans` | packages/z2s/src/compiler.ts:214-259 | A junction edge has what the rows behind its edges hand out, edge by edge, ordered and cut as the far query says. |
| `QueryMeaning.EdgesMean` | packages/z2s/src/compiler.ts:214-259 | The edges themselves: all that are wanted in the order of their table, or, with a limit, the first of them in their own order. |
| `CompilerProof.SelectMeans` | packages/z2s/src/compiler.ts:86-126 | The same for every nested query, under any enclosing aliases and correlation. |
| `CompilerProof.SelectRows` | packages/z2s/src/compiler.ts:86-126 | The compiled FROM, WHERE, ORDER BY and LIMIT bind the query's alias to the selected rows. |
| `CompilerProof.AliasesAreUnique` | packages/z2s/src/compiler.ts:144-150 | No alias is bound twice in a compiled query. |
| `CompilerProof.SelectFresh` | packages/z2s/src/compiler.ts:86-126 | Every nested query binds only aliases from its own stretch of the counter, each at most once, so no reference is captured. |
| `CompilerProof.AliasInjective` | packages/z2s/src/compiler.ts:144-150 | Aliases with different numbers are different strings, whatever underscores and digits the table names contain. |
| `CompilerProof.WhereMeans` | packages/z2s/src/compiler.ts:277-302 | A compiled condition is true, false or unknown exactly when the condition is. |
| `CompilerProof.RelationshipMeans` | packages/z2s/src/compiler.ts:206-275 | A compiled relationship is the nested result for the row that the parent's alias stands for, under the format handed to it, a list or at most one row; for junction edges, ordered ones included, the join. (Which format that is: CompiledMeaning.RelatedCompiledAs.) |
| `CompilerProof.JunctionMeans` | packages/z2s/src/compiler.ts:214-259 | A compiled junction edge, whatever restricts or orders the edge itself, is the join of its two hops, filtered, ordered and limited as the far query says, exactly if no relationship behind it has the name of a column, or no row is handed out. |
| `JunctionOrder.SortsExist` | packages/z2s/src/compiler.ts:152-178 | What is assumed of ORDER BY there, that it loses no row and depends on nothing but the keys, can be met. |
| `CompilerProof.BehindEdges` | packages/z2s/src/compiler.ts:526-559 | Edge by edge, the pairs that survive ON and WHERE are the rows behind the edges that lead from the parent row. |
| `CompilerProof.CorrelatorMeans` | packages/z2s/src/compiler.ts:341-362 | The generated equations are true exactly if every pair of correlated fields is equal; null equals nothing. |
| `CompilerProof.LimitMeans` | packages/z2s/src/compiler.ts:128-142 | Limit 0 wins over everything, a single row over any other limit; either way the first rows are kept. |
| `CompilerProof.ItemsMean` | packages/z2s/src/compiler.ts:94-108 | The selected items are the columns and the relationships, which win over columns of the same name. |
| `CompilerScope.SelectPrints` | packages/z2s/src/compiler.ts:286-296 | For every query whose junction edges lead through one relationship, as the compiler insists: the SQL has no empty parenthesis exactly if no AND or OR in the compiled part of the query is empty, at any depth. |
| `CompilerScope.CompileHears` | packages/z2s/src/compiler.ts:86-126 | What any query compiles to is what its compiled part compiles to, and means what that part means: bounds, and what restricts or orders a junction edge itself, do not matter. |
| `CompilerScope.SelectHears` | packages/z2s/src/compiler.ts:86-126 | The same for every nested query, under any correlation and counter. |
| `JunctionOrder.EdgeOrderDoesNotMatter` | packages/z2s/src/compiler.ts:526-559 | If the far query's order separates the rows of its table, putting the edges into their own order first makes no difference to the rows of a junction. |
| `CompilerScope.StartIsIgnored` | packages/z2s/src/compiler.ts:86-126 | A bound is never compiled: any two bounds give the same SQL. |
| `CompilerScope.EdgeIsNotFiltered` | packages/z2s/src/compiler.ts:214-259 | The junction edge's own filter, order, limit and bound are never compiled. |
| `CompilerProof.ClashLosesRelationship` | packages/z2s/src/compiler.ts:220-236 | In a junction, columns replace relationships of the same name, unlike in a plain query: a row comes out right exactly if no relationship has the name of a column. |
| `CompilerCases.StartIsLost` | packages/z2s/src/compiler.ts:86-126 | A world and a query with a bound: the query selects nothing, its SQL everything. |
| `CompilerCases.EdgeIsLost` | packages/z2s/src/compiler.ts:214-259 | A world and a query whose junction edge lets nothing through, by its filter or by its limit: the SQL leads through it all the same. |
| `CompilerCases.RelationshipIsLost` | packages/z2s/src/compiler.ts:220-236 | A world and a junction in which a column replaces the relationship of the same name. |
| `SqlFormat.FormatFn` | packages/z2s/src/sql.ts:260-320 | The loop over the items: text is kept, every value becomes a placeholder, and its number is the place of the first value with its key in the list of values, which holds these first values only, in their order. |
| `SqlFormat.FormattedOnce` | packages/z2s/src/sql.ts:260-320 | The specification of the loop has that property, for every format and all items. |
| `SqlFormat.Format.FormatValue` | packages/z2s/src/sql.ts:105-114 | One value: the number under which its key was seen, or the next number and the value to send. |
| `SqlFormat.SameNumber` | packages/z2s/src/sql.ts:97-115 | Numbers lie between 1 and the number of values, and two values share one exactly if they share the key. |
| `SqlFormat.EveryNumber` | packages/z2s/src/sql.ts:260-320 | Every number up to the number of values is used. |
| `SqlFormat.SubstitutingReproduces` | packages/z2s/src/sql.ts:260-320 | Putting the listed values in place of the numbers gives every item its own value exactly if items with the same key are shown alike. |
| `SqlFormat.ReusingReproduces` | packages/z2s/src/sql.ts:97-115 | `ReusingFormat` always reproduces the items. |
| `SqlConvert.QueryArrivesExactly` | packages/z2s/src/sql.ts:117-258 | Every value of a query reaches the database, by the string that is listed for its placeholder and the cast in that placeholder: null as null, a value as one of the type it is meant to have (text and double precision in comparisons, the column's type otherwise), a list element by element; exactly if no null is sent as a list, no list of JSON has a string in it, and no string is sent both as text and as JSON. |
| `SqlConvert.ArrivesExactly` | packages/z2s/src/sql.ts:117-258 | One value: what `stringify` makes of it and what `createPlaceholder` makes of that fit together, exactly outside these cases. |
| `SqlConvert.CastsToMeant` | packages/z2s/src/sql.ts:161-258 | The cast makes values of the type that is meant: times from milliseconds, enums by their name, comparisons wider than the column; lists are cast by their elements exactly if the argument is plural. |
| `SqlConvert.SentAsTaken` | packages/z2s/src/sql.ts:117-135 | A value is sent as plain text exactly if the type that it is cast to takes plain text. |
| `SqlConvert.DoNotArrive` | packages/z2s/src/sql.ts:117-258 | There is such a database, and both kinds of lost values: null for an array column arrives as an empty array, an array of JSON with a string in it as something else. |
| `SqlConvert.ConvertingReproduces` | packages/z2s/src/sql.ts:117-159 | `SQLConvertFormat` gives every placeholder the string of its own argument exactly if equal raw values are all sent as text or all as JSON, or are null, or look the same either way. |
| `SqlConvert.SameStringTwice` | packages/z2s/src/sql.ts:144-158 | The failing case: the same string for a text column and then for a JSON column is sent as plain text to both. |
| `Subscriptions.ScanUnaffected` | packages/replicache/src/subscriptions.ts:541-591 | A scan whose recorded range no changed key matches returns the same entries on the new store, and its recorded limit key is still right. |
| `Subscriptions.ReliableExactly` | packages/replicache/src/subscriptions.ts:556-563 | Matching is reliable for a scan exactly if there is no limit, or it is at least one, or the range is empty: with limit 0 the generator yields everything and the matching looks at nothing. |
| `Subscriptions.SameFirst` | packages/replicache/src/subscriptions.ts:624-634 | Stores that agree on the keys in range up to the n-th one agree on the first n entries: why it is enough to look at keys up to the limit key. |
| `Subscriptions.SameRun` | packages/replicache/src/subscriptions.ts:97-123 | A body (any function from the answers so far to the next read) that no changed key matches would ask the same questions, get the same answers and leave the same record. |
| `Subscriptions.SubscriptionImpl.Skipped` | packages/replicache/src/subscriptions.ts:97-105 | A subscription that the diff does not match is up to date with the new store without a run. |
| `Subscriptions.SubscriptionImpl.Invoke` | packages/replicache/src/subscriptions.ts:89-95 | Running the body: every read is answered with what the store has for it, the body ends with its answer to these, and the record is exactly what was read, also when the body fails. |
| `Subscriptions.AllTold` | packages/replicache/src/subscriptions.ts:89-95 | So for every body and store, read by read: `get` has the value of the entry with the key, `has` and `isEmpty` are true exactly if there is such an entry or none at all, the n-th entry of a scan is the n-th stored one in its range. |
| `Subscriptions.RecordIs` | packages/replicache/src/subscriptions.ts:89-95 | The record of a run, read by read: the keys asked for, the scans begun, and how many entries were taken from each. |
| `Subscriptions.SubscriptionImpl.OnData` | packages/replicache/src/subscriptions.ts:115-123 | The callback gets a value only if it differs from the last one, and the last value is kept. |
| `Subscriptions.MatchDiff` | packages/replicache/src/subscriptions.ts:503-539 | The loops over the diff's operations, the record's keys and its scans find a match exactly if some operation's key was read or is one that some scan depends on. |
| `Subscriptions.MatchesExactly` | packages/replicache/src/subscriptions.ts:541-591 | Which keys a scan depends on: those with its prefix, not before its start, and not behind the key that its limit stopped it at; that last part is not looked at for a scan of everything. |
| `Subscriptions.SubscriptionImpl.Matches` | packages/replicache/src/subscriptions.ts:97-105 | When these loops find no match, the record is still that of a run: on whatever new store the diff leads to from one that the record is up to date with. |
| `Subscriptions.SubscriptionImpl.Run` | packages/replicache/src/subscriptions.ts:428-443 | A run, on whatever store is current, leaves the record of that store and queues its result; while all queued results are those of the current store, they stay so. |
| `Subscriptions.SubscriptionImpl.Deliver` | packages/replicache/src/subscriptions.ts:448-465 | The results of runs may be delivered in any order; the last value goes stale exactly if the last run's result is delivered before a different one of an earlier run. |
| `Watches.SelectPrefix` | packages/replicache/src/subscriptions.ts:224-262 | Binary search and the loop that stops at the first foreign key keep exactly the operations with the prefix. |
| `Watches.WatcherMatchesDiff` | packages/replicache/src/subscriptions.ts:647-661 | A watcher is selected exactly if its prefix is empty or some operation has it. |
| `Watches.DiffBinarySearch` | packages/replicache/src/subscriptions.ts:663-671 | The first operation that is not below the prefix. |
| `Watches.DiffKeepsMirror` | packages/replicache/src/subscriptions.ts:214-287 | Applying the operations with the prefix takes a mirror of the old store's entries with that prefix to a mirror of the new store's. |
| `Watches.InitialLists` | packages/replicache/src/subscriptions.ts:224-262 | What the first run computes adds exactly the entries with the prefix. |
| `Watches.DiffUpdates` | packages/replicache/src/subscriptions.ts:647-661 | A diff that did not select a watcher changes nothing with its prefix, so the next one that does leads on from the last one that did. |
| `Watches.NextOnTheWay` | packages/replicache/src/subscriptions.ts:448-465 | Delivering the next diff in commit order: the copy and what is still on its way keep leading to the store, also when the initial values of a later store came first. |
| `Watches.FirstHolds` | packages/replicache/src/subscriptions.ts:224-262 | Initial values may come before diffs that lead up to their store: the keys that those diffs leave alone are right at once, and the others once the diffs have come. |
| `Watches.WatchSubscription.InitialRun` | packages/replicache/src/subscriptions.ts:224-262 | The first run reads everything with the prefix as added, if that was asked for. |
| `Watches.WatchSubscription.Deliver` | packages/replicache/src/subscriptions.ts:208-212 | A callback is called with the operations that have the prefix, exactly if there are any; what it makes of all operations that it was ever called with is the copy. It overtakes if an earlier diff, or the initial values of an earlier store, are still to come. |
| `Watches.WatchSubscription.QuietMirrors` | packages/replicache/src/subscriptions.ts:448-465 | With nothing on its way and nothing overtaken, the copy of a watcher with initial values is exactly the entries with its prefix. |
| `SubscriptionsManager.SubscriptionsManagerImpl.Commit` | packages/replicache/src/subscriptions.ts:408-411 | A commit selects exactly what its diff matches; whatever it does not select, and has no run outstanding, is up to date with the new store. |
| `SubscriptionsManager.SubscriptionsManagerImpl.StartInitialRuns` | packages/replicache/src/subscriptions.ts:467-482 | Every subscription and watcher that waits for its first run gets one started, once. |
| `SubscriptionsManager.SubscriptionsManagerImpl.AllCurrent` | packages/replicache/src/subscriptions.ts:413-465 | Whenever no run and no callback is outstanding, however fires, first runs and commits have overlapped: the last value of every subscription that is not stale is its body's result on the current store, and every watcher with initial values that was not overtaken has exactly the entries with its prefix. If no commit came between a run and its callback, no subscription is stale. |
| `SubscriptionsManager.SubscriptionsManagerImpl.Settle` | packages/replicache/src/subscriptions.ts:413-482 | From every reachable state, ending what is outstanding (first runs included), callbacks in order, gets there and makes nothing stale and nothing overtaken. |
| `SubscriptionsManager.SubscriptionsManagerImpl.Fire` | packages/replicache/src/subscriptions.ts:408-445 | A mutation that is awaited: everything that was right is right for the new store. |
| `SubscriptionsManager.SubscriptionsManagerImpl.Handle` | packages/replicache/src/subscriptions.ts:413-482 | One event, in any order with the others: a commit, the start of first runs, a run on the store of that moment, a callback. All invariants are kept, and only a callback out of order makes something stale or overtaken. |
| `SubscriptionsManager.SubscriptionsManagerImpl.Run` | packages/replicache/src/subscriptions.ts:408-482 | Any sequence of events, then the end of what is outstanding: subscriptions whose results were delivered in the order of their runs are current; watchers whose diffs were delivered in commit order, none between the reading and the coming of the initial values, mirror the last store. |
| `DeliveryOrder.SafeExactly` | packages/replicache/src/subscriptions.ts:413-465 | For the callbacks of overlapping fires to one watcher: an order leaves the copy a mirror of the last store, whatever the commits, exactly if it is that of the commits. |
| `DeliveryOrder.MirrorsExactly` | packages/replicache/src/subscriptions.ts:413-465 | For given commits and a given order: the copy ends up right exactly if, for every key with the prefix, the operation delivered last has the new value of the one committed last. |
| `DeliveryOrder.CallBacks` | packages/replicache/src/subscriptions.ts:448-465 | The same of the watcher itself: what its copy becomes when all waiting callbacks come in some order, and exactly when that mirrors the store; the order is recognised as overtaking exactly if it is not that of the commits. |
| `DeliveryOrder.OvertakenPair` | packages/replicache/src/subscriptions.ts:413-465 | The failing case: two mutations of one key, the first not awaited. Its callback comes second, and the copy keeps the value of the first for ever. |
| `DeliveryOrder.LateInitialValues` | packages/replicache/src/subscriptions.ts:467-482 | Another: initial values that come after the diff of a deletion bring the entry back. |
| `Subscriptions.SubscriptionTransactionWrapper.Ask` | packages/replicache/src/transactions.ts:196-268 | Each read is answered from the entries of the store: `get` with the value of the entry that has the key, and with nothing exactly if none has it; `has` true exactly if one has it; `isEmpty` exactly if there are none; the n-th step of a scan with the n-th stored entry that has the prefix and is not before the start, and with nothing behind the last or the limit-th one. It is recorded: keys, and scans with the key they stopped at. |
| `Subscriptions.ReplyTells` | packages/replicache/src/transactions.ts:196-268 | That the specification answers so, for every store, record and read. |
| `ScanIterator.ScanTells` | packages/replicache/src/scan-iterator.ts:167-214 | The n-th entry that a scan yields is the n-th stored one behind its start with its prefix, up to the limit; there is none exactly if there are fewer. |
| `KeyOrder.FirstDifference` | packages/replicache/src/transactions.ts:375-387 | The order of keys: by the first character that differs, and a proper prefix comes first. |
| `ScanIterator.Next` | packages/replicache/src/scan-iterator.ts:167-214 | One step of the generator: skip the start key if exclusive, stop at the first key without the prefix, count down the limit, report the limit key. |
| `ScanIterator.ScanYields` | packages/replicache/src/scan-iterator.ts:167-214 | The generator yields exactly the stored entries in range, in order, up to the limit. |
| `ScanIterator.AtFirstKey` | packages/replicache/src/transactions.ts:375-387 | Starting at the greater of prefix and start key loses nothing in range. |
| `KeyOrder.PrefixInterval` | packages/replicache/src/transactions.ts:375-387 | Keys with a prefix form an interval that begins at the prefix. |
| `BinarySearch.Search` | packages/shared/src/binary-search.ts:14-29 | An index on the point, or the only place where it could be inserted. |
| `ProcessMutations.ExactlyOnce` | packages/zero-server/src/process-mutations.ts:268-288 | In a committed log, the ids of a client are exactly 1 to its counter, each once. |
| `ProcessMutations.OneOutcome` | packages/zero-server/src/process-mutations.ts:159-228 | Two conclusive answers (result or application error) for one mutation, whichever handlers and turns gave them, are the same answer of the same handler about the same commit. |
| `ProcessMutations.Database.Transaction` | packages/zero-server/src/process-mutations.ts:230-266 | One atomic transaction: what its outcome is under each fault, in and out of sequence, when the mutator fails and when the acknowledgement is lost; it commits one entry and adds one to this client's counter, with the data and result that the mutator gives, or changes nothing. |
| `ProcessMutations.Database.UpdateClientMutationID` | packages/zero-server/src/zql-database.ts:75-91 | Insert 1 or add 1. |
| `ProcessMutations.Transactor.Attempt` | packages/zero-server/src/process-mutations.ts:230-266 | After any turns of other handlers, one transaction adds at most one entry of this handler: the mutator's effects, or the recorded error in error mode. |
| `ProcessMutations.Transactor.Transact` | packages/zero-server/src/process-mutations.ts:159-228 | The retry loop, from the turns of the scheduler, the faults and the mutator: if the first transaction does not fail, its outcome is the answer, after one turn; if it fails, the second one is made in error mode, and records that error and is answered with it, or finds the mutation processed or out of sequence; an exception is thrown exactly if the second one fails too, after two turns. At most one entry is committed by the handler. |
| `ProcessMutations.Transactor.Twice` | packages/zero-server/src/process-mutations.ts:214-228 | An exception means that both transactions, the first in normal and the second in error mode, have failed, and with which errors. |
| `ProcessMutations.Transactor.ErrorIsRecorded` | packages/zero-server/src/process-mutations.ts:164-222 | If the first transaction fails and the second one is in sequence and undisturbed, the answer is the first error, and it is committed. |
| `ProcessMutations.Transactor.MovesOn` | packages/zero-server/src/process-mutations.ts:159-228 | Without faults and other handlers, a mutation in sequence never leaves its client stuck: its effects or its error are committed, and the counter moves on by one. |
| `ProcessMutations.Transactor.Determined` | packages/zero-server/src/process-mutations.ts:230-266 | Nothing else is left open: other handlers' commits and the faults determine what a transaction does. |
| `ProcessMutations.Transactor.HandleMutationRequest` | packages/zero-server/src/process-mutations.ts:117-146 | A push: each mutation is answered by transactions of its own turns, in order, up to the first one out of order; it ends with an exception only if a mutation has failed in both modes. A push without gaps that ends without one is answered completely and all of its mutations are committed afterwards. |
| `ProcessMutations.NeverBehind` | packages/zero-server/src/process-mutations.ts:268-288 | A push without gaps is never answered as out of order, whatever other handlers do meanwhile. |
| `ProcessMutations.StillCommitted` | packages/zero-server/src/process-mutations.ts:125-141 | What has been answered stays committed. |
| `TDigest.TDigest.Group` | packages/shared/src/tdigest.ts:115-137 | The groups are the runs of neighbouring centroids that begin where the last one ends, each closed exactly when the next centroid would exceed the limit; weight and moment are conserved, means stay in order, and there are fewer than 2*ceil(compression) groups. |
| `TDigest.TDigest.OneUnit` | packages/shared/src/tdigest.ts:122-134 | A group of several centroids spans at most one unit of the scale. |
| `TDigest.TDigest.JoinsCluster` | packages/shared/src/tdigest.ts:122-129 | Adding a centroid that fits to the last group keeps the groups what they stand for. |
| `TDigest.TDigest.FewGroups` | packages/shared/src/tdigest.ts:392-397 | Why: every two consecutive groups advance the location on the scale by more than one. |
| `TDigest.BeyondLimit` | packages/shared/src/tdigest.ts:122-131 | A weight beyond the limit of a group lies more than one unit further on the scale. |
| `TDigest.LinearScale` | packages/shared/src/tdigest.ts:330-346 | There are scales that meet the assumptions. |
| `TDigest.TDigest.Process` | packages/shared/src/tdigest.ts:107-144 | `#process` groups all centroids, sorted by mean, conserves total weight and weighted means, and widens minimum and maximum by the outermost means; without new centroids it changes nothing. |
| `TDigest.TDigest.NeverOverfull` | packages/shared/src/tdigest.ts:107-113 | The over-full branch is never why `#process` does something. |
| `TDigest.TDigest.UpdateCumulative` | packages/shared/src/tdigest.ts:179-202 | The shortcut never leaves a stale array: afterwards `#cumulative` is right in every reachable state. |
| `TDigest.TDigest.AddCentroid` | packages/shared/src/tdigest.ts:76-100 | Exactly the positive weights are accepted; total weight and moment grow by them; a centroid waits unprocessed, or, when there is no room for it, everything is processed, so no more than `#maxUnprocessed` ever wait. All accepted means lie within two bounds exactly if the earlier ones do and the new one does. |
| `TDigest.TDigest.AddCentroidList` | packages/shared/src/tdigest.ts:66-70 | The same for a list: total weight and moment grow by those of the accepted centroids. |
| `TDigest.TDigest.Merge` | packages/shared/src/tdigest.ts:102-105 | Everything another digest has accepted is accepted here, and it keeps its own; what bounds the means of both bounds those of the result. |
| `TDigest.TDigest.Count` | packages/shared/src/tdigest.ts:158-164 | The sum of all accepted weights, over any history of additions and merges. |
| `TDigest.TDigest.Quantile` | packages/shared/src/tdigest.ts:207-250 | The answer lies on the line from minimum to first mean, over the first half weight, or on the line between two neighbouring means, over the weights' middles, or is the maximum behind the last middle; no answer exactly for a share outside 0 to 1 or an empty digest; centroids and extremes only change if centroids were waiting. |
| `TDigest.QuantileOnLine` | packages/shared/src/tdigest.ts:207-250 | So for every sorted list of centroids, where the middles are half a centroid's weight and all weights before it. |
| `TDigest.TDigest.QuantileMonotone` | packages/shared/src/tdigest.ts:207-250 | Answers lie between minimum and maximum and are monotone in the share. |
| `TDigest.TDigest.TwoQuantiles` | packages/shared/src/tdigest.ts:207-250 | Two calls of `quantile` in a row, whatever was waiting before: their answers are in the order of the shares, and lie between minimum and maximum and so between the least and the greatest mean that was ever accepted, by additions or merges. |
| `TDigest.TDigest.TwoShares` | packages/shared/src/tdigest.ts:255-328 | Two calls of `cdf` in a row: their answers lie between 0 and 1 and in the order of the values. |
| `TDigest.QuantilesRise` | packages/shared/src/tdigest.ts:207-250 | The same for every sorted list of centroids. |
| `TDigest.RightTail` | packages/shared/src/tdigest.ts:237-249 | Behind the middle of the last centroid the weights have the wrong sign, and the answer is always the maximum. |
| `TDigest.Interpolation` | packages/shared/src/tdigest.ts:370-390 | A weighted average lies between its two values and rises with the position. |
| `TDigest.TDigest.Cdf` | packages/shared/src/tdigest.ts:255-328 | The share, times the total weight, lies on the line between the middles of the two neighbouring means, on that from 0 at the minimum, or to the total weight at the maximum; at an inner mean it is the middle of that centroid; centroids and extremes only change if centroids were waiting. |
| `TDigest.ShareOnLine` | packages/shared/src/tdigest.ts:255-328 | So for every sorted list of centroids. |
| `TDigest.TDigest.CdfMonotone` | packages/shared/src/tdigest.ts:255-328 | Shares lie between 0 and 1 and are monotone in the value. |
| `TDigest.FindIndex` | packages/shared/src/tdigest.ts:229-235 | The search over the cumulative weights ends in the segment that holds the index. |
| `TDigest.AddConserves` | packages/shared/src/centroid.ts:14-25 | Adding centroids adds weights and moments; the mean lies between the means. |
| `TDigest.SortSorts` | packages/shared/src/centroid.ts:31-33 | Sorting by mean keeps the centroids, and so the sums, and puts them in order. |
| `ProcessScheduler.ProcessScheduler.Schedule` | packages/replicache/src/process-scheduler.ts:58-68 | A call gets the promise of a run that has not started, or is refused after an abort. |
| `ProcessScheduler.ProcessScheduler.IdleAwaited` | packages/replicache/src/process-scheduler.ts:87-96 | A run starts only when none is under way, at least a throttle period after the start of the last one. |
| `ProcessScheduler.ProcessScheduler.RunEnds` | packages/replicache/src/process-scheduler.ts:89-96 | The end of a run settles the promise it ran for, and no other. |
| `ProcessScheduler.ProcessScheduler.Abort` | packages/replicache/src/process-scheduler.ts:45-56 | Every pending promise is rejected; settled ones stay as they are. |
| `ProcessScheduler.Handle` | packages/replicache/src/process-scheduler.ts:58-97 | Over any order of events: runs never overlap and are apart by a throttle period, promises are settled once and only by a run that started after the call, nothing is resolved after an abort; every step of the scheduler brings the oldest pending promise closer. |
| `ProcessScheduler.AlwaysProgress` | packages/replicache/src/process-scheduler.ts:70-97 | While a promise is pending, a step of the scheduler is possible, if need be after some time. |
| `ConnectionLoop.ComputeDelayAndUpdateDurations` | packages/replicache/src/connection-loop.ts:280-317 | Without records the delay stays; after a failure it is the minimum or twice the last one, and all records are kept; otherwise the last nine are kept, and it is the minimum right after a failure, and the pace of the successful durations else. |
| `ConnectionLoop.DurationsAre` | packages/replicache/src/connection-loop.ts:312-316 | These durations are those of the successful requests, all of them, in order. |
| `ConnectionLoop.FailuresAre` | packages/replicache/src/connection-loop.ts:290-295 | The failures that count are the last ones in a row. |
| `ConnectionLoop.NextDelayBacksOff` | packages/replicache/src/connection-loop.ts:290-295 | One more failure doubles the delay that accounted for the earlier ones. |
| `ConnectionLoop.WaitAfterFailures` | packages/replicache/src/connection-loop.ts:194-207 | With one connection, the loop sleeps after the k-th failure in a row until min(maxDelay, minDelay * 2^(k-1)) after the last request. |
| `ConnectionLoop.NothingForgotten` | packages/replicache/src/connection-loop.ts:297-304 | With one connection the records are never pruned: they grow with every request. |
| `ConnectionLoop.ConnectionLoop.PaceAndSend` | packages/replicache/src/connection-loop.ts:173-209 | Computes the delay from the records if a request is under way or the last one failed, and forgets it otherwise; sleeps until the clamped delay has passed since the last request, or starts the request; with one connection the delay is the backoff for all failures so far. |
| `ConnectionLoop.ConnectionLoop.SendEnds` | packages/replicache/src/connection-loop.ts:225-247 | A request that ends while the loop is open gives its own outcome, success or error, to every promise that has none, records its success and duration, frees its connection and wakes a loop that waits for one, wakes a sleeping one exactly at the first success after a failure, and asks for another request if it was not successful; after `close` it changes nothing. |
| `ConnectionLoop.ConnectionLoop.Send` | packages/replicache/src/connection-loop.ts:105-122 | A call is refused after `close`; otherwise it is counted and asks for a request, at once or when the document is visible. |
| `ConnectionLoop.ConnectionLoop.Close` | packages/replicache/src/connection-loop.ts:92-98 | Every call that waits has an answer afterwards: the one it had, or that the loop is closed. |
| `ConnectionLoop.Handle` | packages/replicache/src/connection-loop.ts:124-250 | Over any order of events: requests in flight never exceed the connections, each step of the loop starts the next request or comes closer to it, an end wakes a loop that waits for a connection; answers are given once, each by the end of a request, which gives its outcome, or by `close`; a closed loop that waits in vain keeps waiting. |
| `ConnectionLoop.Run` | packages/replicache/src/connection-loop.ts:92-98 | Any events in any order keep the invariant; a closed loop never ends if it waits for a connection, or for a call of `send` with no watchdog timer and no call that is still to become visible. |
| `ConnectionLoop.WindUp` | packages/replicache/src/connection-loop.ts:92-161 | Any other closed loop can end, without another request. |
| `ConnectionLoop.NeverUsed` | packages/replicache/src/connection-loop.ts:148-157 | A loop without a watchdog timer, closed before it is used, waits in vain. |
| `ConnectionLoop.AllInUse` | packages/replicache/src/connection-loop.ts:166-171 | Whatever the options, a loop that is closed while all connections are in use and one more is wanted waits in vain. |
| `ConnectionLoop.NeverTooMany` | packages/replicache/src/connection-loop.ts:105-122 | In every reachable state, open or closed, there are at most `maxConnections` requests under way. |
| `ConnectionLoop.AlwaysProgress` | packages/replicache/src/connection-loop.ts:105-122 | A call without a request since: the loop can make a step, if need be after some time or when a request ends. |
| `ConnectionLoop.AnswerIsComing` | packages/replicache/src/connection-loop.ts:225-243 | A call with a request since: its promise is resolved or that request is still under way. |
| `ConnectionLoop.ClosedAnswersAll` | packages/replicache/src/connection-loop.ts:92-98 | After `close`, every waiting call can return. |
| `AstNormaliseProof.NormalResult` | packages/zero-protocol/src/ast.ts:428-443 | The normal form of a query has the same result, relationships included, if dropping is safe at every level and junction edges lead through at most one relationship. |
| `AstNormaliseProof.NormalTruth` | packages/zero-protocol/src/ast.ts:387-424 | The normal form of a condition has the same truth value under three-valued logic. |
| `AstNormalise.FlattenedMeans` | packages/zero-protocol/src/ast.ts:553-574 | Flattening keeps the truth of a condition whenever what is dropped is neutral where it is dropped, for all leaves. |
| `AstNormalise.DroppedIsHollow` | packages/zero-protocol/src/ast.ts:553-574 | What flattening drops is exactly what consists of empty ANDs and ORs. |
| `AstNormalise.FlattenedBranches` | packages/zero-protocol/src/ast.ts:553-574 | Every AND and OR that comes out has at least two conditions. |
| `AstNormalise.OneLevel` | packages/zero-protocol/src/ast.ts:542-574 | One pass removes one level: the outcome has no AND in an AND and no OR in an OR exactly if no three of a kind were nested directly (for conditions whose ANDs and ORs have at least two conditions). |
| `AstNormaliseProof.SortedMeans` | packages/zero-protocol/src/ast.ts:469-473 | Sorting relationships by alias keeps the output, because the sort is stable. |
| `AstNormaliseProof.SortedByAlias` | packages/zero-protocol/src/ast.ts:469-473 | Sorting orders the relationships by alias and loses none. |
| `AstNormaliseProof.SortedIsCanonical` | packages/zero-protocol/src/ast.ts:469-473 | With distinct aliases, the order in which relationships were written does not show in the normal form. |
| `AstNormaliseProof.CombinedPermuted` | packages/zero-protocol/src/ast.ts:418-434 | The order of conditions does not matter to AND and OR. |
| `NormalForm.NormalHasNoEmpty` | packages/zero-protocol/src/ast.ts:428-443 | The normal form of any query has no empty AND or OR, at any depth. |
| `NormalForm.NoEmptyIsSafe` | packages/zero-protocol/src/ast.ts:553-574 | Every query without empty ANDs and ORs, whose junction edges lead through at most one relationship, is safe to normalise. |
| `NormalForm.NormalMeans` | packages/zero-protocol/src/ast.ts:428-443 | The normal form of every such query has the same result: with bounds, orders, limits, restricted edges and all. |
| `FlattenExactly.SafeExactly` | packages/zero-protocol/src/ast.ts:553-574 | Flattening keeps the truth of all conditions with the same ANDs and ORs, whatever their leaves are, exactly if dropping is safe. |
| `FlattenExactly.Unsafe` | packages/zero-protocol/src/ast.ts:553-574 | Otherwise there are two choices of leaves that the condition does not tell apart, but its flattened form does. |
| `NormalForm.EmptyOrIsDropped` | packages/zero-protocol/src/ast.ts:557-565 | The failing case: an empty OR selects nothing, its normal form selects every row. |
| `NormalForm.NormalisedCompiles` | packages/z2s/src/compiler.ts:67-84 | Normalised, compiled and evaluated: the result of the query itself, from SQL without empty parentheses; junction edges may be ordered. |
| `NameMapper.MapThereAndBack` | packages/zero-protocol/src/ast.ts:445-453 | Whenever mapping a query to server names succeeds, mapping it back to client names succeeds and gives the query: filters, correlations, start rows, orders, nested queries. |
| `NameMapper.Inverse` | packages/zero-schema/src/name-mapper.ts:18-50 | With distinct non-empty names, the two mappers of a schema undo each other on tables and columns. |
| `NameMapper.CreateMapperFrom` | packages/zero-schema/src/name-mapper.ts:18-50 | The loop over tables and columns builds the specified mapping and the flag. |
| `MappedNames.ClientToServer` | packages/zero-schema/src/name-mapper.ts:18-50 | With distinct names, the client's mapper takes each table to its server name if it has one and to its own name otherwise, and each column likewise. |
| `MappedNames.ServerToClient` | packages/zero-schema/src/name-mapper.ts:18-50 | With distinct server names, the server's mapper takes each of them back. |
| `MappedNames.MapAstMaps` | packages/zero-protocol/src/ast.ts:338-462 | Mapping a query succeeds with a result exactly if that is the query with the server name of every table, and of every column in filters, correlations, start rows and orders, at every depth, and nothing else changed; an empty server name of a column counts as none. (Client names are distinct, being keys.) |
| `MappedNames.TableMaps` | packages/zero-protocol/src/ast.ts:338-462 | Table by table: what the mapper gives is the name in the schema. |
| `MappedNames.ColumnMaps` | packages/zero-protocol/src/ast.ts:338-462 | Column by column, likewise. |
| `NameMapper.MapRow` | packages/zero-types/src/name-mapper.ts:49-64 | A row under its new names: each of its columns has, under the name it is mapped to, the value of the last column mapped there, and there are no others; by the shortcut or entry by entry; unknown columns pass through. |
| `NameMapper.ShortcutAgrees` | packages/zero-types/src/name-mapper.ts:49-76 | Where no column counts as renamed, the shortcut gives what the general path gives, for all rows and all lists of columns, exactly if no empty server name gets in the way: to the server, no column but the one named nothing has one; to the client, the column named nothing comes after all that have one. |
| `NameMapper.SameColumnsExactly` | packages/zero-schema/src/name-mapper.ts:18-50 | Under the same condition, and only then, the map of the columns changes no name. |
| `NameMapper.EmptyNameDisagrees` | packages/zero-schema/src/name-mapper.ts:30-37 | A case: an empty server name does not count as a renaming, but is used as a name. |
| `FloatEncoding.OrderKept` | packages/shared/src/float-to-ordered-string.ts:6-26 | Encodings of numbers compare exactly as the numbers do, with -0 before +0. |
| `FloatEncoding.RoundTrip` | packages/shared/src/float-to-ordered-string.ts:28-48 | Decoding an encoding gives back the same bits for every double except a NaN with its sign bit set, and for that it does not. |
| `FloatEncoding.EncodeFloat64AsString` | packages/shared/src/float-to-ordered-string.ts:6-26 | The result does not depend on what was in the shared view, and has 13 digits. |
| `FloatEncoding.DecodeFloat64AsString` | packages/shared/src/float-to-ordered-string.ts:28-48 | The specified decoding, whatever was in the shared view. |
| `FloatEncoding.DecodedIs` | packages/shared/src/float-to-ordered-string.ts:28-48 | Exactly the strings of 13 digits, of either case, are decoded, modulo 2^64, to the double that stands at that number among all doubles, unless that is a NaN with its sign bit set. |
| `FloatEncoding.ScaledGrows` | packages/shared/src/float-to-ordered-string.ts:6-26 | Exponent and fraction read as one number are ordered like the values they stand for. |
| `FloatEncoding.ScaledIs` | packages/shared/src/float-to-ordered-string.ts:6-26 | The values are those of doubles: even steps up to the second power of two, twice the value for the next exponent from the first one on. |
| `FloatEncoding.NaNIs` | packages/shared/src/float-to-ordered-string.ts:6-26 | What is not a number: all bits of the exponent set, and some of the fraction; so infinities are numbers here. |
| `FloatEncoding.DigitIs` | packages/shared/src/float-to-ordered-string.ts:24-25 | Digits are 0 to 9 and small letters; capitals are read likewise. |
| `FloatEncoding.DigitAt` | packages/shared/src/float-to-ordered-string.ts:24-25 | The digits of an encoding: the k-th is the number divided by its power of 36, modulo 36, as a digit or small letter. |
| `FloatEncoding.DigitsCompare` | packages/shared/src/float-to-ordered-string.ts:24-25 | Base-36 strings of one width compare like the numbers. |
| `FloatEncoding.ParseBigInt` | packages/shared/src/parse-big-int.ts:2-10 | The loop over the digits, with the exception for other characters. |
| `FloatEncoding.ParsedIs` | packages/shared/src/parse-big-int.ts:2-10 | A string is a number exactly if all of its characters are digits or letters. |
| `FloatEncoding.ParsedJoin` | packages/shared/src/parse-big-int.ts:2-10 | The value of two strings put together, by the power of 36 for the length of the second. |
| `FloatEncoding.ParsedDigits` | packages/shared/src/parse-big-int.ts:2-10 | Parsing is the inverse of base-36 printing. |
| `DatadogLogSink.Fill` | packages/datadog/src/datadog-log-sink.ts:89-117 | A batch is a non-empty run of messages from the front, of at most 1000 entries and MAX_ENTRY_CHARS characters, and the longest: with one more it is too many or too long. A message has its delay written into it, and its text replaced exactly if its string is too long for any request; the others stay as they are. |
| `DatadogLogSink.JoinOfTwo` | packages/datadog/src/datadog-log-sink.ts:119-120 | The body has the strings one behind the other with newlines between them. |
| `DatadogLogSink.DroppedInOrder` | packages/datadog/src/datadog-log-sink.ts:172-190 | Retry counts never increase from front to back, so cutting off as many messages as have failed too often cuts off exactly those. |
| `DatadogLogSink.CountFailures` | packages/datadog/src/datadog-log-sink.ts:173-180 | The messages at their limit are exactly the first ones. |
| `DatadogLogSink.DatadogLogSink.Batch` | packages/datadog/src/datadog-log-sink.ts:89-119 | The same on the queue. |
| `DatadogLogSink.DatadogLogSink.Succeeded` | packages/datadog/src/datadog-log-sink.ts:169-171 | Posted messages, and only they, leave the queue. |
| `DatadogLogSink.DatadogLogSink.Fail` | packages/datadog/src/datadog-log-sink.ts:172-190 | Messages that have now failed three times, and only they, leave the queue. |
| `DatadogLogSink.DatadogLogSink.Turn` | packages/datadog/src/datadog-log-sink.ts:88-192 | One request, with logging meanwhile: its body is that batch; if it succeeds, these messages and no others leave the queue as posted; if it fails, each of them has failed once more, and exactly those that have failed three times leave; without logging, the remaining attempts decrease. |
| `DatadogLogSink.DatadogLogSink.Flush` | packages/datadog/src/datadog-log-sink.ts:82-198 | At least one request exactly if the queue is not empty, and another one as long as many messages are left; the loop ends once nothing more is logged, with few messages left; no message is lost or reordered. |
| `DatadogLogSink.DatadogLogSink.Log` | packages/datadog/src/datadog-log-sink.ts:61-69 | A message goes to the end of the queue. |

## Left out

- B+ tree: comparators that are not total orders, or that throw; the constructor's initial entries; changes to a set while an
  iterator runs over that same set (iterators run over trees as values; BTreeRuns.Run shows that shared nodes keep being read as the
  same value while other sets are changed); a bound on the height, since nodes have no minimum fill.
- BTreeIterator.AscendingIterator.ValuesFrom: an exclusive start above every key of a root leaf compares with a missing value; what
  the comparator says there is left open, so the contract holds for either answer.
- Compiler: SQL text (identifiers, casts, collations, JSON aggregation and the wrapping `inner_` and `root` selects) and the types of
  columns; operators, ORDER BY and equality are arbitrary functions; rows without an order come in the order of the table.
- Compiler: static parameters, which have to be bound before; `extractZqlResult`.
- CompilerProof.CompileMeans: not for queries with `start`, nor for junction edges with a filter, a limit or a name clash, because the
  compiler ignores or loses these; CompilerScope.CompileHears says what such queries compile to. The order of the edges of a
  junction has no say in what the junction means, unless they are limited.
- Compiler: the exception about a junction edge that does not lead through exactly one visible relationship; such queries are excluded.
- SqlFormat: identifiers (escaping, local names) and removal of indentation; values are compared as the program's `Map` does.
- SqlConvert: how the database casts and prints is assumed, in `ReadsTexts` and `ReadsLists`, for values that fit their type (and types
  that do not cut a string short), as is that it finds no elements in null; which types are string and number types is a parameter.
- Subscriptions: index scans and index watches, whose key encoding is not part of this model.
- Subscriptions: a commit and the selection by its diff are one step, as is a run with the update of its record (it holds the read
  lock). The callbacks of a fire are taken one by one, in any order with all others, which includes the orders that the program can
  produce; that the lock is released only a few microtasks before the callbacks, and so no commit comes in between, is the ghost
  field `prompt` and not derived from the scheduling of promises.
- Subscriptions: unsubscribing, `clear`, the abort signal; the order between subscriptions and watches, which the program keeps in
  one set and this model in two lists.
- Subscriptions: bodies are functions of the answers they get, so two runs on equal answers read and return the same.
- ProcessMutations.Transactor.Transact: an error is a value; a mutator that rejects with `undefined` counts as not having failed
  (process-mutations.ts:164, 194, 217), so it is retried for ever, and never in error mode.
- ProcessMutations: parsing of requests, logging, the callback around `transact`; a transaction is atomic; mutators are opaque, and an
  entry of the log stands for the effects.
- TDigest: real numbers instead of doubles; the scale is any pair of inverse rising maps between 0 to compression and 0 to 1
  that meets the stated conditions, not the arcsine; JSON; `byteSizeForCompression`.
- TDigest: centroids are values, so the aliasing through `centroids()` and merging a digest into itself are not captured; the tracked
  minimum and maximum are those of processed means, not of all added values (TDigest.TDigest.TwoQuantiles bounds the answers by both).
- ProcessScheduler: the process does not call `schedule` before its first await; continuations of one promise run in order of
  registration.
- ConnectionLoop: the options do not change and allow at least one connection; the value of the median; errors that are falsy.
- AstNormaliseProof.NormalResult: the comparison of conditions is not an order, so no canonical order is claimed: conditions are
  rearranged in some way; the cache, and the exceptions about missing aliases and static parameters.
- NameMapper: messages of exceptions; `validator`.
- FloatEncoding: which bits a NaN has.
- DatadogLogSink: timers, the lock (flushes do not overlap), the URL, the conversion of messages; a message that was replaced by a note
  is assumed to fit, and the loop is shown to end when nothing is logged from some request on.
- Everything else in the repository: storage, pull and push, rebase and persist, user interfaces, schemas, scripts.
