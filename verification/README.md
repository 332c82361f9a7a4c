# Verified model of the data layer

The repository's `ent/` directory is a generated data layer: query builders with eager loading,
create and update builders, mutations, hooks and transactions over seven tables. This project models
its algorithms once for all entities, driven by the schema, and proves what they promise. The modules
follow the layer's own structure:

| file | models |
|---|---|
| `Schema.dfy`, `Store.dfy` | the tables, columns and edges; what a query means, and the library that answers it |
| `Migration.dfy` | the tables as the migration declares them, against which all lists of columns are checked |
| `Codec.dfy` | scanValues and assignValues, the decoding of rows |
| `Builder.dfy`, `Traversal.dfy` | the query builders, With, Clone, chained queries and prepareQuery |
| `Loading.dfy`, `Stitch.dfy`, `EagerLoad.dfy` | entities on the heap, the three stitching loops, sqlAll and the recursive loads |
| `EagerTheorems.dfy`, `EagerEdges.dfy` | the loaded object graph against nested-loop joins, and relations between loads |
| `Mutation.dfy`, `EdgeSpecs.dfy`, `UpdateSpec.dfy`, `Update.dfy` | the change log of a mutation, the check, its compilation into an update, and the update from beginning to end |
| `Create.dfy`, `RoundTrip.dfy`, `Bulk.dfy` | create builders, create-then-read, and the bulk create chain |
| `OldValue.dfy` | the once-only snapshot of old values |
| `Hooks.dfy`, `Tx.dfy` | hook folding, withHooks, and the transaction driver |
| `Seqs.dfy` | sequence vocabulary |

The engine in `EagerLoad.dfy` works on objects: entities are `Node`s whose edge fields are assigned in
place, builders are `Query`s whose predicates and fields are appended to while they are executed. A
call of All also returns, as ghost values, the tree of batches it loaded; `Loading.Loaded` says what
the heap below such a tree looks like, and the theorems follow the pointers from there.

## What is assumed

- The store answers a query with the rows that satisfy it, in any order; LIMIT and OFFSET then leave
  some rows of that answer, as many as they allow. A limit of zero reaches the library as the zero
  value, which is no limit, except in the subselect of a chained query, where it means no rows.
  Whether a connection answers its next query is up to the store.
- Primary keys are unique, ids and foreign keys are not NULL, and columns have the types of their
  struct fields. The unique indexes on the two join tables are assumed only where a statement says so.
- The library applies Edges.Clear before Edges.Add, and the assignment of a column before its
  increment. Whether a column that is both cleared and assigned ends up NULL is up to it.
- The store executes an update or a batch as a whole or refuses it as a whole. It refuses whatever
  breaks a NOT NULL constraint: inodes without an id, an edge cleared or removed that leaves a foreign
  key without a value, a join row of a user and a system, which needs a username. It may refuse
  anything else for other reasons.
- Every query builder is executed once: loaders append predicates to the edge builders.
- Ranging over a Go map is an arbitrary pick order.
- Times are opaque values. Go's int has 64 bits where the source adds to it.

## What turned out not to hold

- The LIMIT or OFFSET of an edge query applies to the whole batch, not per parent. The loaded graph is
  the graph of nested-loop joins exactly if no batch, at any level, is cut
  (`EagerTheorems.EagerIsNaive`), as it never is without limits and offsets on the edge queries
  (`EagerEdges.UnlimitedIsUncut`). Two systems with one inode each, loaded together with a limit of
  one inode, lose one of them (`EagerEdges.LimitLosesInode`).
- Clearing an edge does not forget ids added before: saving replays the calls with the clear moved to
  the front. It equals the calls in the order they were made exactly under the condition of
  `UpdateSpec.InOrderExactly`; `UpdateSpec.ClearKeepsAdded` is an example.
- Increments of a numeric field wrap at 64 bits before they reach the store; the saved number is the
  replayed one exactly if their sum does not (`UpdateSpec.SaveReplaysNumber`);
  `UpdateSpec.IncrementsOverflow` is an example.
- The check of an update refuses a required to-one edge that is both cleared and set, but lets one
  through that is only cleared (`UpdateSpec.ClearingPassesCheck`), and clears and removals on a
  one-to-many edge as well. The store refuses exactly those (`UpdateSpec.StoppedByStore`), so no
  required link is lost (`UpdateSpec.RequiredLinksStay`).
- For the same reason no update can add anything over the edges between users and systems: the join row
  would have no username (`UpdateSpec.JoinRowIncomplete`).
- Setting a field after clearing it does not take the clear back: it is sent both as assigned and as
  cleared, and may end up NULL. The last call decides in all other cases and only in those
  (`UpdateSpec.LastCallExactly`); `UpdateSpec.ClearThenSet` is an example.
- A hook that changes the operation on its way down can run under both On and Unless. One after the
  other, in this order, they are the hook itself exactly if it does not move a matching mutation out of
  the operations of the condition, or running it twice cannot be told from running it once
  (`Hooks.OnUnlessExactly`); `Hooks.OpChangedRunsTwice` is an example.

## Model

| member | source | states |
|---|---|---|
| Schema.EdgesOfOwner | ent/usersystem_query.go:478-534 | The edges an entity's query loads are exactly those it owns, each once |
| Schema.EdgeColumns | ent/migrate/schema.go:190-255 | Every edge reads key columns that exist and are NOT NULL, and none is the id |
| Migration.ColumnsMatch | ent/migrate/schema.go:13-231 | The entities have exactly the columns of their tables, each once, and the struct field of a column has the kind of its SQL type |
| Migration.LeftOut | ent/migrate/schema.go:13-231 | What a row gets that leaves a column out: ids that number themselves, zero, one link, or a value of the column's enumeration |
| Migration.KeysMatch | ent/migrate/schema.go:34-250 | The key columns of an entity are its primary key and its foreign keys, and none may be NULL |
| Migration.EdgesRefer | ent/migrate/schema.go:287-311 | Every edge follows foreign keys of the tables in the right direction: from owner to target, from target to owner, or from a join table to both |
| Migration.RelatedRefers | ent/user/user.go:60-64 | So two rows are on an edge exactly if foreign keys of the tables connect them |
| Migration.JoinsAreUnique | ent/migrate/schema.go:215-256 | The unique index a many-to-many edge relies on is declared for its join table |
| Store.QueryNodes | ent/usersystem_query.go:498-503 | The library's answer: a sub-multiset of the nested loop over candidates and join rows, in any order, of exactly the size LIMIT and OFFSET leave |
| Store.WindowSizes | ent/usersystem_query.go:725-730 | How many rows LIMIT and OFFSET leave; a limit of zero is none |
| Store.AllHitsMembers | ent/usersystem_query.go:605-613 | The uncut answer of a joined query holds a hit exactly if the row passes and some join row links it to one of the ids |
| Store.HitsDistinct | ent/migrate/schema.go:212-219 | With the unique index on the join table no (parent id, child) pair is answered twice |
| Store.FilterHits | ent/usersystem_query.go:546-553 | Filtering by the parents' keys turns the child query into the batch query of a foreign-key edge |
| Store.JoinHits | ent/user_query.go:461-469 | Joining the parents' ids turns the child query into the batch query of a many-to-many edge |
| Builder.Query.Chained | ent/usersystem_query.go:71-90 | QueryX creates a new, empty builder of the edge's target, younger than the builder on its path |
| Builder.Query.With | ent/usersystem_query.go:362-369 | WithX hangs a separate builder under its edge, replaces any earlier one, and keeps builders a tree of owners without paths |
| Builder.Query.Clone | ent/usersystem_query.go:340-358 | Clone yields only new objects holding the same tree of settings, and shares just the path |
| Builder.Query.ApplyAt | ent/usersystem_query.go:40-69 | A call on a builder at any depth changes the value of the tree at that place and nowhere else |
| Builder.EditedThere | ent/usersystem_query.go:362-369 | A call changes the builder at its path as it would change it alone, and nothing if there is none |
| Builder.EditedElsewhere | ent/usersystem_query.go:362-369 | At every other place all settings stay, and no builder comes or goes |
| Builder.EditClone | ent/usersystem_query.go:340-358 | Any calls on a clone, at any depth, change no object of the original |
| Builder.CloneThenEdit | ent/system_query.go:316-333 | Any calls on the original, at any depth, leave an earlier clone's value as it was |
| Traversal.PrepareQuery | ent/usersystem_query.go:452-476 | Fails exactly on an invalid field somewhere along the path; otherwise the candidate rows are those reached over the path, all of them if no builder on it is limited; ends because paths lead to older builders |
| Traversal.SqlQuery | ent/usersystem_query.go:741-771 | The subselect of a path step: only rows that pass, all of them without LIMIT and OFFSET; at the start of a path, otherwise as many as those leave, where an offset alone comes with a limit of 2147483647 |
| Traversal.SetNeighbors | ent/system_query.go:113-132 | A path step leads to exactly the rows on the edge of some selected row, each once |
| Codec.ScanValues | ent/usersystem.go:93-106 | One holder per listed column, of the kind of its struct field |
| Codec.AssignValues | ent/inode.go:95-190 | Fails exactly on too few values or a holder of the wrong kind; otherwise assigns the columns in turn, and keeps the values of columns that are no fields |
| Codec.NeverDisagrees | ent/usersystem.go:93-157 | scanValues and assignValues agree on the type of every column, whatever the driver found |
| Codec.AssignDecodes | ent/inode.go:74-190 | In any column order, with repetitions and unknown columns, decoding yields the listed non-NULL fields of the row |
| Codec.AssignSelects | ent/inode.go:185-186 | In any column order, the values kept are those of exactly the listed columns that are no fields, unconverted |
| Codec.ReadRow | ent/usersystem_query.go:489-497 | A row that goes through scanValues and assignValues never errors, decodes to its listed fields, and keeps the values of all other columns |
| Stitch.GroupByKey | ent/usergroup_query.go:448-456 | The ids are duplicate-free and exactly the foreign keys; the groups partition the parents, losing and repeating none |
| Stitch.AttachOne | ent/usergroup_query.go:465-473 | Every parent points at the entity its foreign key names, or keeps what it had; fails exactly on an entity no parent refers to |
| Stitch.IndexById | ent/system_query.go:495-503 | Every parent under its own id, nothing else, and every slice of the edge initialised to empty |
| Stitch.AttachMany | ent/system_query.go:514-521 | Every parent's slice is the order-preserving filter of the neighbors by foreign key; fails exactly on an unknown one |
| Stitch.AttachThrough | ent/usersystem_query.go:644-652 | Every parent's slice is the order-preserving filter of the neighbors by the recorded links, for every order of the inner map; fails exactly on an unannounced neighbor |
| EagerLoad.QuerySpec | ent/usersystem_query.go:695-718 | The id comes first and once; with a selection exactly the id, the selected fields and the foreign keys of requested to-one edges are read, without one all columns |
| EagerLoad.JoinHook.Assign | ent/usersystem_query.go:627-636 | The interceptor links the child to one more parent and lets a struct be created only for a child not seen before |
| EagerLoad.LinksAnnounced | ent/usersystem_query.go:594-637 | The links recorded over a row stream are exactly those some row announces, whatever the order and repetitions |
| EagerLoad.FirstMembers | ent/usersystem_query.go:627-636 | The children of a stream: its distinct rows |
| EagerLoad.Collect | ent/usersystem_query.go:489-503 | One new struct per distinct row in order of first appearance, with the stream's links recorded |
| EagerLoad.FetchBatch | ent/usersystem_query.go:478-503 | The first half of sqlAll: one query, and nothing exactly if the store does not answer it; otherwise new structs of distinct ids holding exactly the selected columns, and no edge filled |
| EagerLoad.LoadEdges | ent/usersystem_query.go:504-534 | The second half of sqlAll: every requested edge loaded, no other edge filled, nothing queried for an empty batch |
| EagerLoad.SqlAll | ent/usersystem_query.go:478-534 | The batch of the query's row stream with the whole tree below it loaded as requested; a store failure exactly if the last query failed; an invalid field exactly if a builder selects one whose parents' batch is not empty, naming the first in loading order |
| EagerLoad.LoadM2O | ent/usergroup_query.go:447-475 | One query for all parents; every parent points at exactly the related entity of the batch; the unexpected foreign-key error cannot occur |
| EagerLoad.LoadO2M | ent/system_query.go:494-523 | One query for all parents; every parent lists exactly the related entities of the batch in its order; the unexpected foreign-key error cannot occur |
| EagerLoad.LoadM2M | ent/user_query.go:450-510 | One joined query for all parents; the children in order of first appearance in the row stream; every parent lists only linked entities, each once, all of them if the stream was not cut, and with the unique index only then; the unexpected node error cannot occur |
| EagerLoad.All | ent/usersystem_query.go:259-267 | What a caller gets: rows of the path that pass, all exactly if the root is not cut, loaded in depth; new objects only; at most one query per builder of the tree, whatever the number of rows; a store failure exactly if the last query failed; an invalid field exactly if the path or a builder the load gets to selects one, naming the first; the recursion ends |
| Store.QueriesAlone | ent/usersystem_query.go:478-534 | The bound on the queries: a builder without edges counts once |
| Store.QueriesMore | ent/usersystem_query.go:504-534 | and one more requested edge adds the count of its own builder |
| EagerLoad.StreamAnswers | ent/usersystem_query.go:498-503 | A query's structs are all candidate rows that pass exactly if LIMIT and OFFSET cut nothing |
| EagerLoad.JoinStream | ent/user_query.go:461-469 | The row stream of a many-to-many load is every passing child next to every parent it is linked to exactly if it is not cut, given the unique index for the converse |
| EagerLoad.JoinExact | ent/usersystem_query.go:644-652 | Through a join table a parent lacks exactly what the row stream lacks |
| Loading.ForeignKeyExact | ent/system_query.go:494-553 | Through a foreign key all parents are complete exactly if the batch was not cut |
| EagerTheorems.UncutIsNaive | ent/usersystem_query.go:478-684 | If no batch is cut, every loaded struct shows, over its edge pointers and at every level, the graph of per-node nested-loop joins |
| EagerTheorems.NaiveIsUncut | ent/usersystem_query.go:478-684 | Conversely, if all loaded structs show those graphs, then no batch at any level was cut |
| EagerTheorems.EagerIsNaive | ent/usersystem_query.go:478-684 | Eager loading equals the nested-loop joins exactly if no edge query's LIMIT or OFFSET cuts a batch at any level |
| EagerTheorems.ForestIsNaive | ent/system_query.go:442-492 | The result of All as a set of graphs: the nested-loop graphs of exactly the candidate rows that pass |
| EagerTheorems.AllIsNaive | ent/usersystem_query.go:259-267 | End to end: a builder without limits on its path or root, whose edge queries cut nothing, leaves exactly the nested-loop graphs of the rows its path reaches that pass |
| EagerTheorems.SharedBelow | ent/system_query.go:555-613 | At every level ids are distinct, and a child id loaded by one edge query is one heap object for all its parents |
| EagerTheorems.ListIsNaive | ent/usersystem_query.go:594-654 | A complete to-many edge is a duplicate-free list of the nested-loop join, in batch order, even if join rows repeat |
| EagerEdges.HeldByReference | ent/system_query.go:494-613 | A loaded edge that was not cut holds exactly the rows that pass and that foreign keys of the tables connect to its struct |
| EagerEdges.SystemsOfUser | ent/user_query.go:450-510 | A user holds exactly the passing systems whose id is the system_id of a row of user_systems with the user's id as user_id |
| EagerEdges.FieldsLoaded | ent/usersystem_query.go:695-718 | A loaded struct holds the stored values of its id and the selected fields, or of all fields without a selection |
| EagerEdges.InversePairs | ent/migrate/schema.go:190-255 | The inverse edges of the schema, over the same foreign key or the same join table with the columns swapped |
| EagerEdges.InverseSymmetry | ent/system_query.go:554-614 | For two loads from opposite ends, s is in u's edge exactly if u is in s's, up to each query's predicates |
| EagerEdges.ThroughPairs | ent/migrate/schema.go:190-255 | The many-to-many edges of users and user systems with the join edges that lead the same way |
| EagerEdges.ThroughAgrees | ent/user_query.go:450-540 | The rows held by a many-to-many edge are those reached over its join entities |
| EagerEdges.ThroughCounts | ent/user_query.go:450-540 | As lists with repetitions the two agree exactly if no two join rows of the node lead to the same passing row |
| EagerEdges.ThroughOfLoad | ent/user_query.go:450-540 | Both hold of every struct of one load that requests the edge and, over the join entities, the onward edge |
| EagerEdges.UniqueSingle | ent/migrate/schema.go:252-256 | The unique index of the join table implies that condition |
| EagerEdges.SelectKeepsLinks | ent/usersystem_query.go:703-717 | Two loads of a row that differ only in selected fields, at any level, reach the same ids over the same edges |
| EagerEdges.LimitIsPerBatch | ent/system_query.go:494-523 | A limit of one inode cuts nothing for either of two systems alone, but cuts their batch |
| EagerEdges.LimitLosesInode | ent/system_query.go:494-523 | Whatever is loaded for both systems, it is not the nested-loop joins |
| EagerEdges.UnlimitedIsUncut | ent/system_query.go:494-523 | Without limits and offsets on the edge queries of a builder no batch is cut, whatever the store holds |
| EagerEdges.UnlimitedIsNaive | ent/system_query.go:442-492 | Such a builder always loads the nested-loop joins |
| EagerEdges.AccessorsAreNaive | ent/usersystem.go:52-88 | XOrErr: not loaded exactly for edges not requested, not found exactly if no row passes, otherwise the nested-loop join |
| Mutation.Mutation.AddIDs | ent/mutation.go:2440-2448 | All ids enter the added set, which exists afterwards even without ids |
| Mutation.Mutation.RemoveIDs | ent/mutation.go:2460-2469 | All ids leave the added set and enter the removed set |
| Mutation.Mutation.Add | ent/mutation.go:4937-4944 | Increments accumulate with 64-bit wrap-around |
| Mutation.Mutation.Perform | ent/mutation.go:4905-5213 | Any sequence of calls leaves the fold of their effects on the log |
| Mutation.UpdatableMatch | ent/inode_update.go:294-357 | The columns an update handles are all columns of the table but the id, the creation time and the foreign keys; exactly the integers can be incremented |
| Mutation.AllowedCalls | ent/mutation.go:4905-5213 | The generated methods add ids to and remove them from to-many edges, set to-one edges, and clear and reset both |
| Mutation.AllowedValues | ent/mutation.go:455-495 | Numbers are set and incremented by numbers of 64 bits, other fields set to values |
| Mutation.AllowedClears | ent/mutation.go:2279-2283 | The fields that can be cleared are those that may be NULL |
| Mutation.WrapExamples | ent/mutation.go:4937-4944 | The numbers of 64 bits stay, and the one after the last of them becomes the first |
| UpdateSpec.Check | ent/usersystem_update.go:244-258 | Refuses exactly when a set value fails its validator or some to-one edge is both cleared and set, and reports values first |
| UpdateSpec.ValidMatch | ent/migrate/schema.go:51-231 | A validator takes exactly the strings the column takes: its enumeration, or its size |
| UpdateSpec.EmitEdges | ent/system_update.go:374-418 | Whatever is linked, the emitted clears and adds leave, per edge, what the log asks for |
| UpdateSpec.EmitFields | ent/usersystem_update.go:272-283 | Whatever is stored, the emitted assignment and increment leave the assigned or old number plus the increment |
| UpdateSpec.Compile | ent/system_update.go:256-418 | sqlSave: refused exactly if check refuses, otherwise a specification with the effects of the log on edges, numbers and all other fields, cleared ones included |
| UpdateSpec.ClearFirst | ent/mutation.go:2440-2492 | For all calls and all linked ids: clear then add equals replaying the additions and removals since the last reset with any clear moved to the front |
| UpdateSpec.InOrderExactly | ent/system_update.go:374-418 | It equals the calls in the order made exactly if every id waiting to be added at the last clear is mentioned again |
| UpdateSpec.ClearKeepsAdded | ent/mutation.go:2450-2453 | An id added and then cleared away is linked nevertheless, and over the join table of groups no constraint prevents it |
| UpdateSpec.SaveReplaysRef | ent/mutation.go:5054-5078 | A to-one edge: refused exactly if set and cleared since the last reset, otherwise the replay of the calls |
| UpdateSpec.StoppedByStore | ent/migrate/schema.go:192-231 | An update that passes the check breaks a NOT NULL constraint exactly if the calls clear a to-one edge, clear or remove something linked over a one-to-many edge, or add over the join table of users and systems |
| UpdateSpec.RequiredLinksStay | ent/migrate/schema.go:192-231 | An update that passes the check and breaks no constraint leaves to-one edges linked and every row of a one-to-many edge on it |
| UpdateSpec.ClearingPassesCheck | ent/usersystem_update.go:251-256 | Clearing a required edge and nothing else passes the check, and only the constraint refuses it |
| UpdateSpec.JoinRowIncomplete | ent/user_update.go:292-312 | Adding a system to a user, or a user to a system, passes the check, and the constraint refuses it whatever is linked |
| UpdateSpec.NeedsMoreMatch | ent/migrate/schema.go:191-231 | A join table needs more than its keys exactly if it has another column that may not be NULL and gets no value of its own |
| UpdateSpec.SaveReplaysNumber | ent/mutation.go:4905-4959 | The saved number is the replay modulo 2^64, and equal to it exactly if the pending increments fit 64 bits |
| UpdateSpec.IncrementsOverflow | ent/mutation.go:4937-4944 | Two increments that add up to 2^63 are saved as a decrement of 2^63 |
| UpdateSpec.SaveReplaysValue | ent/mutation.go:2249-2294 | A field without increments is saved as the last of the calls since its last reset left it, unless it was set after it was cleared; then the library decides |
| UpdateSpec.LastCallExactly | ent/mutation.go:2249-2294 | The last call decides, whatever the library does with both, exactly if the field was not set after it was cleared |
| UpdateSpec.ClearThenSet | ent/mutation.go:2249-2284 | A description that is cleared and then set may be saved as NULL |
| Update.Stored.Execute | ent/system_update.go:419-426 | The assumed store executes a specification as a whole, or refuses it, and then changes nothing |
| Update.Save | ent/inode_update.go:247-292 | End to end: any calls on a new mutation, the default update time, sqlSave and the store; refused by the check exactly for a value its column does not take or an edge of those calls, stopped by the store exactly for a constraint they break or reasons of its own, and otherwise the row holds the replayed links, numbers and values in every updatable column |
| OldValue.UpdateMutation.OldValue | ent/mutation.go:4755-4774 | The closure reads the store at its first call only, and not after a save; later calls repeat its value or error |
| OldValue.UpdateMutation.OldField | ent/mutation.go:5287-5304 | The answer to a request, with its four kinds of error, as a function of the events so far |
| OldValue.UpdateMutation.Perform | ent/mutation.go:4755-4774 | Over every run of requests and saves, each answer is the expected one and the store is read at most once |
| OldValue.OneSnapshot | ent/mutation.go:4923-4935 | All successful answers of a run, to any fields, come from the row the store held at the first request |
| OldValue.TooLate | ent/mutation.go:4762-4769 | If the update was saved before the first request, every later answer is an error |
| OldValue.FromTheNode | ent/mutation.go:4776-4785 | A mutation that was given its entity answers every request for a column from it, even after a save |
| OldValue.NoAnswer | ent/mutation.go:4923-4931 | The other errors: no such column, not the update of one entity, no entity to ask about |
| Create.CreateMutation.Defaults | ent/inode_create.go:195-220 | Defaults fill exactly the fields that were not set: times with the time of the call, the link count with one, the other numbers with zero |
| Create.DefaultsMatch | ent/migrate/schema.go:13-231 | A default is the one the table declares, or the time of the creation |
| Create.CreateMutation.Check | ent/usersystem_create.go:158-186 | Reports the first required field that is not set, or else a username that is too long |
| Create.FieldsMatch | ent/migrate/schema.go:13-231 | createSpec writes every column of the table but the id, and check requires those that may not be NULL |
| Create.RequiredInOrder | ent/inode_create.go:223-264 | check asks for them in the order of the struct |
| Create.CreateMutation.Spec | ent/usersystem_create.go:206-290 | The struct and the specification hold the same fields, and the client's id if there is one; the specification links exactly the added ids over every to-many edge |
| Create.LinksMatch | ent/usersystem_create.go:256-288 | The edges createSpec links are all to-many edges of the entity |
| Create.AcceptedExactly | ent/inode_create.go:195-264 | After defaults the check passes exactly if the caller set every field without a default |
| Create.AcceptedStorable | ent/migrate/schema.go:13-231 | A creation is accepted exactly if the table takes the row, and what check reports is a column it does not take |
| RoundTrip.SqlSave | ent/usersystem_create.go:188-204 | On success the struct holds the written fields and the stored id, and the mutation's id is the struct's |
| RoundTrip.ReadsBack | ent/inode_create.go:289-364 | The row a creation stores decodes, with the columns in any order, to the struct Save returned |
| RoundTrip.CreateAndRead | ent/usersystem_create.go:118-204 | End to end: the row of the specification, read back, is the struct Save returned, and holds in every column what the caller set or else the time, one link, or zero; or the creation is rejected exactly if the table does not take that row, with such a column, and leaves the mutation as it was |
| Bulk.Driver.BatchCreate | ent/usersystem_create.go:325-331 | The store logs the batch and fills in missing ids, or changes nothing; it refuses inodes without an id |
| Bulk.Chain.Core | ent/usersystem_create.go:311-343 | One mutator below its hooks: the batch is reached exactly if this and all later builders are open; marks on the way up |
| Bulk.Chain.Mutate | ent/usersystem_create.go:344-348 | The same from any hook of any builder; hooks see and change the mutation before and after the next mutator, or fail |
| Bulk.Save | ent/usersystem_create.go:300-356 | One batch, complete and in builder order, exactly if every check and every hook lets the chain down, else none; without hooks its rows hold what the callers set or the defaults; which mutations are done, and that the others keep their ids; on success every struct carries the id of its stored row, as far as it is known and always for inodes, and the mutation's id is the struct's |
| Bulk.DoneIsSuffix | ent/usersystem_create.go:331-343 | Whenever Save returns, the mutations that are done form a suffix of the list, and a non-empty one only if the batch succeeded |
| Bulk.BatchAfterChecks | ent/usersystem_create.go:316-318 | One failing check or hook anywhere on the way down, and Save creates no batch |
| Hooks.IsOnBits | ent/hook/hook.go:137-141 | An operation is another one if they are equal or have a bit in common |
| Hooks.Chain.Wrap | ent/hook/hook.go:249-256 | The loop from last to first builds the fold of the hooks, the first one outermost |
| Hooks.Chain.Append | ent/hook/hook.go:260-265 | A new chain with the hooks of both; the original is untouched and shares no slice with it |
| Hooks.Chain.Extend | ent/hook/hook.go:269-271 | A new chain with the hooks of both chains, sharing no slice with either |
| Hooks.FoldExtends | ent/hook/hook.go:269-271 | Hook of Extend(c, d) applied to m is Hook(c) of Hook(d) of m |
| Hooks.OnUnlessOnce | ent/hook/hook.go:205-214 | Chained in either order they run a hook exactly once, if it passes mutations on only to the side of the condition they came from |
| Hooks.OnUnlessExactly | ent/hook/hook.go:191-214 | For hooks that change the mutation, call on once and change the result: chained they are the hook itself, for every mutator behind them, exactly if the hook does not move the mutation to the other side of the condition, or running it twice shows in no result |
| Hooks.OpChangedRunsTwice | ent/hook/hook.go:205-214 | A hook that changes the operation on its way down is run by both |
| Hooks.RejectStops | ent/hook/hook.go:217-235 | A rejected operation reaches no later hook and not the mutator; others pass unchanged |
| Hooks.WithHooks | ent/ent.go:504-535 | The same fold over the same hooks; no hooks: the operation itself; an uninitialized hook: nothing is run |
| Hooks.ReachesOperation | ent/ent.go:512-519 | When hooks lead a mutation on, the operation is executed if the mutation is of the builder's type by then, and otherwise refused |
| Hooks.PassThrough | ent/ent.go:509-533 | A hook that only calls on is no hook |
| Hooks.TypeKept | ent/ent.go:512-533 | Under hooks that keep the type of a mutation, withHooks is the fold of the hooks around the operation itself |
| Hooks.OnlyOwnType | ent/ent.go:512-519 | What the operation would do with mutations of other types does not matter, whatever the hooks do |
| Hooks.And | ent/hook/hook.go:100-112 | Holds exactly if all conditions hold |
| Hooks.Or | ent/hook/hook.go:115-127 | Holds exactly if some condition holds |
| Tx.Client.Begin | ent/client.go:143-165 | Refused exactly on a transactional client, without asking a database; otherwise one transaction of its own, without statements, hooks or ends, unless the database refuses |
| Tx.RunSteps | ent/tx.go:202-226 | Over any builder operations and attempts to begin again, the underlying transaction sees all statements in order and is never ended, and every attempt is refused |
| Tx.Transaction.GetClient | ent/tx.go:150-157 | One client bound to the transaction, created by the first call and returned by every later one |
| Tx.Transaction.End | ent/tx.go:72-92 | Commit and Rollback end the transaction as often as the hooks of that moment call through, and execute and register what those hooks do; hooks registered meanwhile wait; the other end is untouched; and when an error is returned, every hook deciding from what its calls returned |
| Tx.EndsOnce | ent/tx.go:128-148 | Hooks that call the next one once leave exactly one end; none happens exactly if some hook does not call on |
| Tx.FailsAsUnderlying | ent/tx.go:128-140 | Under hooks that call on once and pass errors on, the whole fails exactly if the transaction's own end failed or some hook fails by itself |
| Tx.HiddenExactly | ent/tx.go:72-84 | Under hooks that call on once, a failed end is reported as success exactly if some hook swallows the error and no hook around it fails |

## Left out

- Traversal.PrepareQuery: with a LIMIT or OFFSET on the path it states inclusion only, because the
  subselect's duplicates, which count against the limit, belong to the SQL the library builds.
- Traversal.SqlQuery: behind another path step it does not state the number of rows under LIMIT and
  OFFSET, for the same reason.
- EagerTheorems.EagerIsNaive: uses the unique indexes of the join tables, because a cut that drops only
  a repeated link loses nothing; `UncutIsNaive` needs no index.
- Update.Save: an update of one row; one of several rows at once differs in the one-to-many edges.
- Bulk.Save: hooks call the next mutator once, with the mutation they were given, and never turn its
  error into success.
- Tx.Transaction.End: a hook executes statements, registers hooks, and then calls the next function some
  number of times; other orders of the three, and registering from other goroutines, are not modelled.
- SQL text, selectors, dialects, drivers and the graph library: represented by `Store.dfy`.
- Interceptors around queries: the same fold as hooks, without the mutation.
- Count, Exist, First, Only, IDs, GroupBy, Aggregate and Scan of the query builders.
- Order: kept as a setting of the builder; the store answers in any order anyway.
- Re-running a builder, Debug drivers and Unique(false).
- The cleared fields of a mutation that belong to edges, which sqlSave does not read.
- UpdateOne's field selection and missing-id errors; delete builders.
- Spare capacity of Go slices: sequences are values, so two builders never share a backing array.
- Negative limits and offsets.
- Predicate constructors, order options, printing, panicking variants, configuration, migrations, the
  HTTP service.
