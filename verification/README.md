# Incremental view maintenance, modelled and proved in Dafny

The repository keeps the results of SQL queries up to date inside SQLite. A
batch of signed source rows is pushed through a DAG of relational operators,
and the stored result must end up equal to the query evaluated from scratch.
This project models that engine and the meaning-preserving pieces of its
compilers and sister engines, and proves:

- **Recursive views** (`datalog.dfy`, `rederive.dfy`, `mixed_support.dfy`, `tables.dfy`,
  `queries.dfy`, `fixpoint_statements.dfy`, `fixpoint.dfy`). Delete-and-rederive
  over AUTOINCREMENT tables and semi-naive rowid ranges. One side changed by any
  mix of departures and arrivals leaves exactly the least fixpoint of the new
  inputs. With several sides, the drain never loses a member of the new least
  fixpoint, and it is exact for all rule sets of a shape if and only if the batch
  is *safe*: no row arrives on a side that a rule reads next to a member, or
  before a departing side nothing departs and nothing arrives next to a member
  (`DrainExactIff`). The class `FixpointNode` runs the code's loops, with the
  rowid ranges, the work and deleted tables and the round budget, and reaches
  the state these theorems speak of. The emitted delta is members after minus
  members before. Initial population reaches the least fixpoint.
- **Whole plans** (`plans.dfy`, `locality.dfy`, `meaning.dfy`, `slots.dfy`,
  `scratch.dfy`, `node_meaning.dfy`, `materialize.dfy`, `population.dfy`,
  `node_deltas.dfy`, `runs.dfy`, `drain.dfy`). The class `Engine` runs the drain
  over scratch tables shared by interval allocation. For every valid plan and every batch, every node writes
  exactly the change of its value, skipped nodes included, and the stored result
  goes from the old value of the query to the new one, with every scratch table
  empty again. An output group takes the branches of the code: its before image
  is read off the stored rows or computed, its COUNT and SUM are added to or
  recomputed, and its delta is applied in place. Initial population reaches the
  same state; it reads nothing but the shared scratch tables, finds every input
  of every node complete there, and its reader counters never underflow. A batch
  or a new view is refused only where a check fails: `PassesChecks` and
  `PopulationPasses` say, over all evaluations of the new sources, which checks
  hold. What evaluation itself means is counted out copy by copy, NULL keys and
  padding included, without its functions.
- **Operators with state of their own**: UNION and DISTINCT support counts with
  representatives (`set_membership.dfy`), the COUNT/SUM fast path
  (`aggregate.dfy`), applying a delta to the result copy by copy or in place
  (`apply_state.dfy`), and the output group that uses all of these
  (`group_output.dfy`, `sums_output.dfy`).
- **Compilers and sister engines**: ON splitting (`on_split.dfy`), the column
  lexer and group projection (`columns.dfy`, `quoted_text.dfy`,
  `group_projection.dfy`), the extremum tree (`extrema.dfy`), the two-stack SQL
  translator (`translator.dfy`), the term dictionary and its order
  (`terms.dfy`), and a benchmark oracle (`reach.dfy`).

`bags.dfy` holds signed bags: a scratch table is a sequence of rows with
weights, not necessarily consolidated; `Net` is a row's signed multiplicity and
`IsDelta(d, s, t)` says that `d` nets `t` minus `s`. `dafny verify
dfyconfig.toml` checks everything.

## Decisions

- Each SQL statement is its set or bag effect. Where SQL leaves row order open,
  a join enumerates its sources as nested loops; no theorem depends on it.
- Whole-plan theorems compare rows by equality (`Rows.Itself`). Collation and
  numeric folding are the abstract `key` of `FixpointNode` and `SupportTable`,
  which must be idempotent and respected by every rule.
- Theorems about a drain speak of runs that succeed; the model returns `ok ==
  false` where the code raises its round, seed, group or multiplicity budgets,
  or when the result misses a retracted copy. The contract of the method that
  makes a check says exactly when it fails; for recursive rounds it says that
  they end in time whenever fewer rows than the budget can be stored.
- What a group computes is an abstract function of its rows. `OutputOk` ties a
  plan's marks to it: the grouping key is read back off every shown row, a plain
  group shows at most one row, and a COUNT/SUM group shows its key, count and
  sums. This is the shape of the expressions that `stored_group_key` and
  `aggregate_sum_inputs` test; `sums_output.dfy` proves that every COUNT/SUM query
  of that shape meets it.
- Whether the row check finds stored group rows corrupt is left open: both
  branches lead to the same before image.
- In a drain, `live` rows are computed once per node and batch in the model; the
  code generates them again in each statement. Both read the same tables. In
  initial population no such rows are read, and `live` is ghost.
- `max(rowid)` of the member table can shrink after deletes, so the closing
  rounds of a pass may start with `lo` above `hi`; the model keeps that case.

## Where the code and its description part

- Several changed sides are passed one after the other, and an unsafe batch loses
  exactness: an earlier pass can derive, through a row that is new, from a member
  that a later pass deletes, and the later delete pass walks old inputs only, so
  the derived row stays. `UnsafeBatchFails` names rules and the stale row for
  every unsafe batch.
- Between two sides, every remaining member need not keep a support over inputs
  whose passed sides are new and whose other sides are old: rounds read the new
  inputs of every side, so an arrival can be derived through a side that is
  passed only later. For every batch and every position the support is there for
  all rule sets of a shape if and only if nothing is passed yet, or nothing
  arrives on the sides to come and the sides passed so far are a safe batch
  (`SupportExact`). Batches with only departures always keep it; batches with
  only arrivals keep it exactly while all arrivals are on one side of the
  position (`DeparturesKeepSupport`, `ArrivalsKeepSupport`).
- Updating a group result in place matches rows by group, not exactly. It
  succeeds exactly when every retracted group is stored, and then equals old plus
  delta exactly when each retracted row is the stored one and a group that only
  receives a row has none (`InPlaceExact`). A group node's own deltas always meet
  this (`GroupAppliesInPlace`).
- Population of UNION ALL reads its first input only: exact if and only if the
  other inputs are empty (`UnionAllPopulation`). `Populate` asks for that of every such node
  (`CopiesFirst`); a plan whose UNION ALL nodes have one input meets it.
- The runtime's text index is a plain object, so a text that is the name of an
  inherited property (`constructor`, `toString`, `__proto__`) is answered with
  that property and never gets an id. The bijection covers all other texts.
- Renumbering twice equals renumbering by the composition if and only if no
  reference lands on `usize::MAX` on the way, or the second map keeps it.

## Model

| member | source | states |
|---|---|---|
| Datalog.LfpClosed | src/1d_drain.rs:300-304 | the recursive view's meaning is closed under every rule |
| Datalog.LfpLeast | src/1d_drain.rs:300-304 | and inside every set closed under every rule |
| Rederive.DrainLosesNothing | src/1d_drain.rs:249-271 | for every batch, passing the sides one by one keeps every member of the new least fixpoint |
| Rederive.DrainExact | src/1d_drain.rs:249-271 | a safe batch leaves exactly the least fixpoint of the new inputs, for any number of sides |
| Rederive.UnsafeBatchFails | src/1d_drain.rs:256-268 | for every batch that is not safe it names rules of the shape and a row that the drain keeps and that no longer follows |
| Rederive.DrainExactIff | src/1d_drain.rs:249-271 | all rules of a shape are drained exactly if and only if the batch is safe |
| Rederive.OneSideExact | src/1d_drain.rs:305-432 | one changed side, any mix of departures and arrivals: exact |
| MixedSupport.SupportExact | src/1d_drain.rs:249-271 | for every batch and position between sides: all rules of a shape keep a support over passed-new and remaining-old inputs if and only if the batch is safe so far |
| MixedSupport.SupportHolds | src/1d_drain.rs:249-271 | the holding half, for given rules |
| MixedSupport.SupportBreaks | src/1d_drain.rs:328-363 | the breaking half: names the rules and a member that nothing supports over those inputs |
| MixedSupport.DeparturesKeepSupport | src/1d_drain.rs:249-271 | a batch with only departures keeps the support between any two sides |
| MixedSupport.ArrivalsKeepSupport | src/1d_drain.rs:249-271 | a batch with only arrivals keeps it, for all rules of a shape, if and only if not both a passed and a remaining side have arrivals |
| Rederive.UnchangedSide | src/1d_drain.rs:257-267 | the pass of a side that did not change would change nothing |
| Queries.EvaluateConcludes | src/1a_relational.rs:133-160 | a rule's FROM product with its predicate yields, up to key, exactly the conclusions over key-normalized members |
| Queries.EvaluateConcludesAt | src/1a_relational.rs:165-190 | the same with one occurrence bound to a changed side's rows |
| Tables.InsertAllKeepsTable | src/1b_state.rs:136-152 | INSERT OR IGNORE under the membership index adds exactly the missing keys, under fresh rowids |
| FixpointStatements.BeforeImage | src/1ca_source_reads.rs:15-25 | current minus delta, grouped, is exactly the set before the batch |
| FixpointStatements.SplitExact | src/1e_program.rs:500-518 | left and arrived are exactly the rows whose support crossed zero, also for an unconsolidated delta |
| FixpointStatements.EmissionConserves | src/1e_program.rs:606-618 | retract_gone, emit_stored and emit_fresh net stored rows after minus before, with rows back under another representative |
| FixpointStatements.SeedConserves | src/1e_program.rs:618-618 | seed_new nets the same when nothing left |
| FixpointStatements.DeleteLoopDone | src/1d_drain.rs:374-398 | at the end of the delete rounds exactly the members reached from the departed rows over old inputs are gone |
| FixpointStatements.PopulationClosed | src/1c_materialize.rs:496-519 | whichever break ends the loop, the members are closed |
| Fixpoint.FixpointNode.RoundDerives | src/1e_program.rs:577-589 | adds exactly what member rules conclude from the members in the rowid range |
| Fixpoint.FixpointNode.DeleteDerives | src/1e_program.rs:590-605 | adds to work exactly the members so concluded from the work rows in the range |
| Fixpoint.FixpointNode.Rounds | src/1d_drain.rs:328-355 | on success the members above the start are closed under member rules over the new inputs; it succeeds whenever all that may be stored has fewer rows than the round budget |
| Fixpoint.FixpointNode.LeftDerives | src/1e_program.rs:678-705 | work gains exactly the members with an old derivation through a departed row |
| Fixpoint.FixpointNode.ArriveDerives | src/1e_program.rs:643-672 | every conclusion through an arrived row is stored, and nothing outside the bound |
| Fixpoint.FixpointNode.DeleteRound | src/1d_drain.rs:383-397 | one round moves the work range's members to deleted and derives the next range |
| Fixpoint.FixpointNode.DeleteRounds | src/1d_drain.rs:373-398 | on success work holds everything reached, and the members have lost exactly that; it succeeds whenever the old members have fewer rows than the round budget |
| Fixpoint.FixpointNode.Restore | src/1e_program.rs:573-576 | stores again exactly the work rows that the remaining members still conclude |
| Fixpoint.FixpointNode.PassMembers | src/1d_drain.rs:356-412 | one pass takes the members to the state the side's specification names |
| Fixpoint.FixpointNode.Pass | src/1d_drain.rs:305-432 | on success the members are the side's and the emitted rows net the change; it succeeds whenever the members before and after fit the round budget |
| Fixpoint.FixpointNode.Emit | src/1d_drain.rs:413-431 | the signed rows written net members after minus members before, and are counted |
| Fixpoint.FixpointNode.Split | src/1d_drain.rs:437-443 | fills left and arrived with exactly the rows that departed and arrived |
| Fixpoint.FixpointNode.Drain | src/1d_drain.rs:249-271 | all touched sides in turn, untouched sides as good as passed; it succeeds whenever the members between any two passes fit the round budget |
| Fixpoint.ClosedFits | src/1d_drain.rs:249-271 | that is so when a set of fewer rows than the budget holds the old members and is closed under the rules over the new inputs |
| Fixpoint.FixpointNode.Populate | src/1c_materialize.rs:484-522 | on success exactly the least fixpoint; it succeeds whenever the fixpoint has fewer rows than the round budget |
| Fixpoint.DrainedMeaning | src/1d_drain.rs:249-271 | from the old least fixpoint: nothing lost, and exact for a safe batch |
| Plans.MapDelta | src/1c_materialize.rs:80-92 | projecting and filtering a signed delta gives the delta of the projection |
| Plans.NetInner | src/1c_materialize.rs:167-176 | an inner join is bilinear in its inputs' multiplicities |
| Plans.JoinDelta | src/1e_program.rs:334-366 | both sides' deltas against the other side's current rows, minus the cross term, is the change of the join |
| Locality.EvalSame | src/1c_materialize.rs:91-283 | joins, set operations and groups depend on their inputs only as bags |
| Locality.EvalSplit | src/1d_drain.rs:198-208 | the value of a join, set operation or group with GROUP BY is that of its touched part plus that of the rest |
| Locality.KeylessSplit | src/1d_drain.rs:198-208 | without GROUP BY that holds if and only if a group over no row shows nothing |
| Locality.TouchedKeysExact | src/1d_drain.rs:198-238 | after minus before over the keys of the delta is the whole change |
| Locality.BeforeTouchedExact | src/1ca_source_reads.rs:252-254 | the before image rebuilt as current minus delta is the old input restricted to the touched keys |
| Meaning.EvaluationUnique | src/1ca_source_reads.rs:61-106 | evaluation from scratch is determined by the sources, recursive nodes included |
| Meaning.EvalPositive | src/1c_materialize.rs:47-352 | evaluating actual copies gives actual copies |
| Meaning.ConcatDelta | src/1e_program.rs:247-259 | copying every input's delta is the delta of UNION ALL |
| Meaning.InnerDeltaExact | src/1d_drain.rs:179-196 | the join statements that run for the touched sides are the change of the join |
| Meaning.BeforeImageExact | src/1e_program.rs:313-316 | the before image computed from current rows and deltas is the touched keys' old rows |
| Meaning.KeyedDeltaExact | src/1d_drain.rs:198-245 | the consolidated difference of the touched keys' images, however obtained, is the change of the node's value |
| Materialize.CheckGroup | src/1c_materialize.rs:419-468 | succeeds exactly when there are no more than 100000 groups and no row with more than a million copies, or a LIMIT that wants no more |
| NodeMeaning.EvaluatedNode | src/1c_materialize.rs:66-283 | a node of any kind shows the copies that counting over its inputs' rows gives, in terms of key cells, padding, residual, distinctness and groups |
| NodeMeaning.NodeShows | src/1ca_source_reads.rs:90-152 | so every node of a plan, over its inputs' values and widths |
| NodeMeaning.NullLeftRow | src/1ab_native_keys.rs:55-82 | a left row with a NULL key cell pairs with nothing: padded once per copy by LEFT and FULL, kept by ANTI, absent elsewhere |
| NodeMeaning.NullRightRow | src/1ab_native_keys.rs:55-82 | a right row with a NULL key cell: padded once per copy by RIGHT and FULL, absent elsewhere |
| NodeMeaning.PairedRows | src/1c_materialize.rs:167-176 | equal non-NULL key cells and a true residual pair with the product of multiplicities, and nothing else pairs |
| Materialize.Execute | src/1c_materialize.rs:403-475 | fails exactly when a joined multiplicity is no count or a window or LIMIT exceeds a budget; else gives the node's rows, a join's as counted by key cells |
| Meaning.ItselfMeans | src/1ab_native_keys.rs:102-109 | with rows as their own keys the key-normalized rules have the rules' own least fixpoint |
| Slots.LatestConsumers | src/1a_relational.rs:212-218 | the last consumer of every node |
| Slots.LastReads | src/1a_relational.rs:212-229 | long-lived nodes last to the end, every other node to its last consumer |
| Slots.AssignOutSlots | src/1a_relational.rs:229-243 | lifetimes that share a table never overlap; a node takes the first table of its width that is not in use, and a new one only when all are |
| Slots.OwnersApart | src/1a_relational.rs:207-210 | two nodes whose lifetimes meet never share a table |
| Scratch.StartsFree | src/1d_drain.rs:75-157 | a node that starts finds its table held by nobody |
| Scratch.PassNode | src/1d_drain.rs:133-151 | after a node's write and sweeps every delta still to be read is in its table and all other tables are empty |
| Population.WriterFindsEmpty | src/1b_state.rs:311-320 | when a node writes, no node with reads to come uses its table |
| Population.PendingStep | src/1b_state.rs:339-341 | the next read finds a positive counter |
| Population.InputsComplete | src/1c_materialize.rs:13-33 | the shared tables a node reads hold its inputs' complete values |
| Population.NodeReads | src/1b_state.rs:299-305 | a read leaves every row that will still be read, and the node's own rows |
| Population.NodeDone | src/1b_state.rs:306-320 | after the node's own turn the next node's hypotheses hold |
| Population.LastReadsLeft | src/1b_state.rs:321-334 | at the end only the aggregate's input is still to be read, complete, and after it every table is empty |
| NodeDeltas.DrainedMembers | src/1d_drain.rs:124-129 | a drained recursive node of a plan holds the least fixpoint of its inputs' current values |
| NodeDeltas.UnchangedNode | src/1d_drain.rs:82-89 | a node whose inputs did not change has not changed, and its state is still right |
| NodeDeltas.ShownIsUnion | src/1ca_source_reads.rs:148-151 | the rows with positive support are the UNION of the inputs |
| NodeDeltas.NothingEvaluates | src/1b_state.rs:279-284 | the empty-input shortcut: such nodes evaluate to nothing |
| NodeDeltas.UnionAllPopulation | src/1c_materialize.rs:91-96 | populating UNION ALL from its first input is exact if and only if the other inputs are empty |
| NodeDeltas.CopiedFirst | src/1c_materialize.rs:80-96 | then a map or UNION ALL node copies its value from its first input's table |
| Runs.SeedRowsPrefix | src/1d_drain.rs:50-70 | the seeds of a longer batch are no fewer |
| Drain.SourcesApart | src/1a_relational.rs:225-229 | all sources hold their deltas from the start, in different tables |
| Drain.NodePasses | src/1d_drain.rs:131-156 | one node's step keeps the loop's whole invariant |
| Drain.InputsChanged | src/1d_drain.rs:80-86 | the tables a node reads hold the changes of its inputs' values, as many rows as counted |
| Runs.OneSidedIsSafe | src/1d_drain.rs:256-268 | plans whose recursive nodes have one input need no condition on the batch |
| Runs.OneInputCopiesFirst | src/1c_materialize.rs:91-96 | plans whose UNION ALL nodes have one input meet what population asks of them |
| Drain.Engine.StoredIsQuery | src/1d_drain.rs:28-33 | between batches the stored result is the query over the current sources, by any evaluation |
| Drain.Engine.Seed | src/1d_drain.rs:41-73 | each source table gets exactly its non-zero staged rows; it succeeds exactly when every source is within the budget |
| Drain.Engine.SeedNode | src/1d_drain.rs:50-71 | succeeds exactly when the source's rows are within the budget |
| Drain.Engine.DrainUnion | src/1d_drain.rs:98-123 | fails exactly when a touched count overflows; else writes the change of the UNION and keeps its support faithful |
| Drain.Engine.DrainCopies | src/1d_drain.rs:90-97 | writes the change of the map or UNION ALL |
| Drain.Engine.JoinStatements | src/1d_drain.rs:179-191 | runs one statement per touched side and the cross term |
| Drain.Engine.DrainInner | src/1d_drain.rs:179-196 | fails exactly when a multiplicity overflows; else writes the change of the join, consolidated or not |
| Drain.Engine.BeforeImage | src/1d_drain.rs:210-222 | the touched keys' old rows, stored or computed; fails exactly when they are computed beyond a budget |
| Drain.Engine.SumsImage | src/1d_drain.rs:223-233 | adding to the stored counts and sums, or recomputing, gives the touched groups' new rows and keeps the metadata right |
| Drain.Engine.AfterImage | src/1d_drain.rs:223-236 | the touched keys' new rows; fails exactly beyond a budget |
| Drain.Engine.DrainKeyed | src/1d_drain.rs:198-245 | fails exactly when a budget is exceeded; else writes the change of the node, consolidated, through the branch the code takes |
| Drain.Engine.DrainFixpoint | src/1d_drain.rs:124-129 | writes the change of the recursive node and keeps its members the least fixpoint; it succeeds whenever a set of fewer rows than the round budget bounds it |
| Drain.Engine.DrainNode | src/1d_drain.rs:90-130 | whatever its kind, the node's table ends with the change of its value and no other table changes; it succeeds whenever the node's checks hold |
| Drain.Engine.Live | src/1ca_source_reads.rs:64-152 | live rows of a node are its value over the current sources |
| Drain.Engine.Sweep | src/1d_drain.rs:137-156 | clears what was last read and nothing that will be read |
| Drain.Engine.FinalSweep | src/1d_drain.rs:158-165 | no scratch row is left |
| Drain.OutputInPlace | src/1d_drain.rs:281-291 | the output group's change names only stored groups, and in place it leads to the new value |
| Drain.Engine.ApplyOutput | src/1d_drain.rs:133-136 | the stored result follows the output's value, copy by copy or in place; in place it never fails, and a join, set or group output never misses a retracted copy |
| Drain.Engine.Drain | src/1d_drain.rs:34-169 | every node writes exactly new value minus old value, the result becomes the query over the new sources, all tables are empty; a batch that passes its checks is never refused |
| Runs.CopiesPass | src/1d_drain.rs:41-136 | over maps and UNION ALL, every batch of arrivals within the seed and multiplicity budgets passes its checks |
| Drain.Engine.CountReads | src/1b_state.rs:246-268 | every counter starts at the reads to come |
| Drain.Engine.Exhaust | src/1b_state.rs:339-352 | called only with a positive counter; the last read clears the table |
| Drain.Engine.FillUnion | src/1b_state.rs:293-295 | support and representatives from the shared tables are those of the node's inputs |
| Drain.Engine.FillFixpoint | src/1c_materialize.rs:484-522 | anchors and rounds over the shared tables reach the least fixpoint of the node's inputs |
| Drain.Engine.FillKeyed | src/1c_materialize.rs:403-475 | joins, groups, EXCEPT and INTERSECT over the shared tables give the node's value; fails exactly beyond a budget |
| Drain.Engine.FillCopy | src/1c_materialize.rs:80-96 | copying the first input's shared table gives the node's value |
| Drain.Engine.Fill | src/1b_state.rs:285-292 | whatever its kind, the rows read from the shared tables are the node's value; fails exactly beyond a budget |
| Drain.Engine.EmptyInput | src/1b_state.rs:279-284 | answers yes only when nothing can be read |
| Drain.Engine.ExhaustOwn | src/1b_state.rs:306-320 | writes the result from complete rows and leaves the next node's hypotheses; it fails exactly beyond the multiplicity budget |
| Drain.Engine.Measure | src/1b_state.rs:321-334 | the metadata read off the aggregate's input describes it, and every table is empty |
| Drain.Engine.Populate | src/1b_state.rs:190-337 | reading shared tables only, population leaves every node's state, the result, the metadata and the empty tables as a drain needs them; a view that passes its checks is never refused |
| SetMembership.AddedCopies | src/1cb_set_membership.rs:91-99 | every copy of a row of the key counts once, and nothing else |
| SetMembership.FirstIsFirst | src/1cb_set_membership.rs:91-94 | the row ranked first is an addition before a retraction, left before right, then least in exact order |
| SetMembership.MaterializedLeast | src/1c_materialize.rs:97-122 | the materialized row is the least in exact order of its key's rows on the left, or on the right when the left has none |
| SetMembership.UpsertCounts | src/1cb_set_membership.rs:91-99 | after the upsert every key's counts are its copies in the current inputs |
| SetMembership.UpsertRepresents | src/1cb_set_membership.rs:91-104 | unless a representative was retracted, stored rows represent the current inputs, the left one first |
| SetMembership.MaterializedRepresents | src/1c_materialize.rs:116-122 | the fallback's row represents its key: the left side wins |
| SetMembership.MaintainedFaithful | src/1d_drain.rs:98-114 | one batch keeps the whole state faithful |
| SetMembership.EmittedIsChange | src/1d_drain.rs:105-121 | the emitted rows net the change of the shown rows, for unconsolidated deltas too |
| SetMembership.BadIsTooMany | src/1cb_set_membership.rs:100-100 | on faithful state the domain check fires exactly when a touched key has more copies than a 64-bit integer counts |
| SetMembership.ShownIsDistinct | src/1ca_source_reads.rs:148-151 | with rows as keys the node shows the distinct input rows |
| SetMembership.OneRowPerKey | src/1cb_set_membership.rs:1-2 | exactly one row is shown per key of the inputs |
| SetMembership.SupportTable.Drain | src/1d_drain.rs:98-123 | succeeds exactly when no touched count overflows; over every run: faithful before, faithful after, and the change emitted |
| SetMembership.SupportTable.Read | src/1ca_source_reads.rs:148-151 | reads exactly the shown rows |
| SetMembership.SupportTable.Populate | src/1cb_set_membership.rs:54-71 | faithful from the complete inputs |
| ApplyState.RetractFirst | src/1e_program.rs:756-759 | a stored copy goes exactly when fewer copies of its row than are retracted come before it |
| ApplyState.RetractTakes | src/1e_program.rs:756-759 | of every row as many copies go as are retracted or stored |
| ApplyState.RetractCount | src/1d_drain.rs:278-291 | the counts agree exactly when no row is retracted more often than it is stored |
| ApplyState.ExtendAdds | src/1e_program.rs:761-765 | every addition is stored as often as it says |
| ApplyState.ResultTable.ApplyCopies | src/1d_drain.rs:275-299 | succeeds if and only if covered and within the peak, and then nets old plus delta |
| ApplyState.ResultTable.Write | src/1b_state.rs:368-397 | the first write stores exactly the rows, one per group for an output group |
| ApplyState.ResultTable.ApplyInPlace | src/1e_program.rs:767-781 | succeeds if and only if every retracted group is stored |
| ApplyState.InPlaceCount | src/1d_drain.rs:281-291 | replaced plus deleted equals wanted exactly in that case |
| ApplyState.InPlaceRow | src/1e_program.rs:778-780 | which row each group shows afterwards; still one per group |
| ApplyState.InPlaceExact | src/1e_program.rs:767-781 | the result is old plus delta if and only if the delta fits the stored rows |
| ApplyState.SurvivorsKeepRowid | src/1e_program.rs:778-778 | every surviving group keeps its rowid |
| GroupOutput.StoredTouched | src/1e_program.rs:317-330 | the stored rows of touched groups are those groups' rows over the old input |
| GroupOutput.ReadIsStored | src/1e_program.rs:461-466 | the counts and sums read off the before image are those of the old input |
| GroupOutput.ShownIsAfter | src/1e_program.rs:484-484 | the rows shown from right counts and sums are the touched groups' new rows |
| SumsOutput.CompiledComputes | src/1e_program.rs:413-430 | every COUNT/SUM query that shows key, count and sums computes what the fast path assumes, from any bag |
| SumsOutput.CompiledShows | src/1b_state.rs:10-21 | and has one row per group, which shows its key |
| GroupOutput.ConsolidatedCovers | src/1d_drain.rs:284-291 | a consolidated delta of the stored value retracts no row more often than it is stored |
| GroupOutput.GroupSingular | src/1b_state.rs:13-21 | a plain group node that shows its keys has at most one row per group |
| GroupOutput.GroupChangeFits | src/1d_drain.rs:228-245 | its consolidated delta takes and gives at most one row per group and takes the stored one |
| GroupOutput.GroupAppliesInPlace | src/1e_program.rs:767-781 | so applying it in place gives the group node's new value |
| Aggregate.UpdatedMeta | src/1e_program.rs:483-483 | after an eligible batch every touched group is safe with exact non-null support |
| Aggregate.AppliedCell | src/1e_program.rs:459-463 | stored sum plus delta sum is the sum over the current input, NULL exactly when no non-null cell is left |
| Aggregate.FastPath | src/1e_program.rs:449-485 | an eligible batch leaves every group as a recomputation would |
| Aggregate.SlowPath | src/1d_drain.rs:228-232 | an ineligible batch recomputes and stops trusting the touched groups |
| Aggregate.NoOverflow | src/1e_program.rs:449-456 | no partial sum of an eligible batch, in any order, leaves 10^12 |
| Aggregate.MeasuredMeta | src/1b_state.rs:321-333 | initial metadata describes every group, and marks exactly the groups of at most 10^6 rows with small values as safe |
| Aggregate.AddedRow | src/1e_program.rs:461-475 | `m` copies of a row add `m` to its group's count, `m` to the support of a non-NULL cell and `m` times an integer cell to its sum, and nothing to another group; over no row all are zero |
| Aggregate.PlainTotals | src/1e_program.rs:461-475 | count, support and sum are those of the group's rows unrolled copy by copy |
| Aggregate.Aggregates.Drain | src/1d_drain.rs:223-233 | groups stored as a fresh aggregation stay so, on either path, and the metadata stays right; a touched group's count is the number of its rows' copies and a sum of integers their total, it is stored exactly while it has rows (or without GROUP BY), and it stays trusted exactly on the fast path |
| OnSplit.ResolvesTo | src/0b_relational.rs:165-186 | a name resolves to a column exactly when that column alone answers to it, letter case aside, with or without its table |
| OnSplit.KeysAre | src/0c_compile_from.rs:410-440 | the keys are exactly the columns, one of each side, of one affinity and collation, that some conjunct equates, either way round |
| OnSplit.KeysImplied | src/0c_compile_from.rs:410-440 | every extracted key equality is implied by the condition |
| OnSplit.KeysSuffice | src/0c_compile_from.rs:380-409 | when both splits agree the keys are the whole condition |
| OnSplit.Joined | src/0c_compile_from.rs:140-176 | builds the split join |
| OnSplit.SplitPreservesOn | src/0c_compile_from.rs:140-192 | the split join accepts a pair exactly when every ON is true in three-valued logic, predicate dropped or not |
| Columns.Lossless | src/0f_columns.rs:4-49 | visited tokens concatenate to the input |
| Columns.VisitColumns | src/0f_columns.rs:4-49 | the byte scan visits exactly these tokens |
| Columns.RenumberColumns | src/0f_columns.rs:70-80 | writes the renumbered text |
| Columns.ColumnReferences | src/0f_columns.rs:51-59 | collects the references in order |
| QuotedText.QuotedStays | src/0f_columns.rs:10-27 | text in quotes, doubled quotes included, or in brackets stays byte for byte and refers to no column |
| QuotedText.ReferenceChanges | src/0f_columns.rs:30-45 | outside quotes the word `c` and the digits of a number is a reference, renumbered to the digits of its image |
| QuotedText.OtherWordStays | src/0f_columns.rs:30-45 | any other word outside quotes stays |
| Columns.LexRenumbered | src/0f_columns.rs:70-80 | the renumbered text lexes to the renumbered tokens |
| Columns.ReferencesMap | src/0f_columns.rs:51-80 | references map through the renumbering |
| Columns.RenumberComposes | src/0f_columns.rs:70-80 | renumbering composes if and only if no reference is lost at usize::MAX |
| GroupProjection.ProjectGroupInput | src/0d_compile_select.rs:26-85 | projects exactly when no window, no foreign reference and a column nobody reads; keeps the read columns in order |
| GroupProjection.ViewProjected | src/0d_compile_select.rs:60-68 | every expression sees on the projected row what it saw on the full row |
| GroupProjection.ProjectionPreservesGroup | src/0d_compile_select.rs:23-85 | the group over the projected input sees the same rows and copies |
| Extrema.ExtremumIsCorrect | crates/ivm-dd/src/2_dd.rs:1031-1046 | the flat result is an extremum over the live non-NULL cells, NULL only when all are |
| Extrema.ReduceKeeps | crates/ivm-dd/src/2_dd.rs:1006-1013 | replacing buckets by their extrema loses no group and no extremum |
| Extrema.Hierarchical | crates/ivm-dd/src/2_dd.rs:990-1029 | nor do all levels together, and one row per group remains, for any hash |
| Extrema.AtMostSixteen | crates/ivm-dd/src/2_dd.rs:988-989 | the last group reduction reads at most sixteen rows of a group |
| Extrema.TreeIsFlat | crates/ivm-dd/src/2_dd.rs:990-1046 | the tree's cells compare equal to the flat ones |
| Translator.TranslateWithStacks | crates/ivm-duckdb/src/1_sql.rs:97-128 | the stacks never underflow and return the recursive result or its first error |
| Translator.TranslatesAccepted | crates/ivm-duckdb/src/1_sql.rs:138-231 | exactly the names in scope, and calls of the right arity on operands of the right types, are translated, to cells of the stated type |
| Translator.HugeintWraps | crates/ivm-duckdb/src/1_sql.rs:189-189 | the HUGEINT formula is 64-bit wrap-around and stays far inside 128 bits |
| Translator.TermKeyOrder | crates/ivm-duckdb/src/1_sql.rs:89-96 | sort keys order term cells as the engines do, unknown ids by their fixed-width hexadecimal fallback included |
| Translator.CallGives | crates/ivm-engine/src/1_rel.rs:356-387 | what a call gives, over which cell comes before: kinds first, integers by value, texts at the first differing code unit, terms by rank after unknown ids; arithmetic up to multiples of 2^64 |
| Translator.CompareMeans | crates/ivm-duckdb/src/1_sql.rs:194-231 | translated comparisons are the engines' typed comparisons |
| Translator.TranslationPreservesMeaning | crates/ivm-engine/src/1_rel.rs:342-390 | accepted expressions evaluate in SQL to what the engines evaluate, with the same type |
| Terms.Runtime.Mint | crates/ivm-rxjs/src/1_runtime.ts:93-101 | keeps ids and terms in bijection, and grounded when its Id arguments were minted before |
| Terms.Runtime.MintText | crates/ivm-rxjs/src/1_runtime.ts:103-110 | a text gets its id exactly when it is no inherited property name |
| Terms.Runtime.InitialTerms | crates/ivm-rxjs/src/1_runtime.ts:87-92 | the literals' ids |
| Terms.DistinctIds | crates/ivm-rxjs/src/1_runtime.ts:93-110 | equal terms or texts have equal ids |
| Terms.CompareIsStrictTotal | crates/ivm-rxjs/src/1_runtime.ts:124-141 | the order is zero only on equal ids, antisymmetric and transitive |
| Terms.ComparesTerms | crates/ivm-rxjs/src/1_runtime.ts:124-141 | unknown ids first, by number; texts before compound terms, by the first code unit that differs; compound terms by arity, functor and first differing argument |
| Terms.OrderIsStable | crates/ivm-rxjs/src/1_runtime.ts:124-141 | later minting does not reorder known ids |
| Oracle.Pass | bench/src/oracle.rs:267-274 | an unchanged pass proves closure; a changed one adds a class |
| Oracle.GrowthBound | bench/src/oracle.rs:265-281 | never more classes past the roots than edges |
| Oracle.ReachCycle | bench/src/oracle.rs:254-283 | returns each reachable class exactly once and never exhausts its budget |

## Left out

- Drain.Engine.DrainFixpoint: the work table is created per batch, so its rowids restart; the code clears a persistent one, and the pass starts at rowid 0 either way.
- Drain.Engine.Populate: requires every input of a UNION ALL node but the first to be empty, because population reads the first only (`UnionAllPopulation`).
- SetMembership.SupportTable.Populate: overflow inside SQLite's own `sum`, here, in before images and in the other aggregations of weights, is not modelled; the checks the engine makes of its results are.
- Fixpoint.FixpointNode.Drain: each occurrence of an input in a rule reads the side it names; two sides over the same child are two sides here as in the compiled plan.
- Drain.Engine.SumsImage: a view without a metadata table, which recomputes every touched group, is not modelled.
- Aggregate.Aggregates.Drain: SUM over cells other than integers and NULLs is an abstract function of the group's rows; overflow of a recomputed SUM is not modelled.
- Extrema.TreeIsFlat: needs a total preorder on cells; a REAL column holding NaN next to numbers does not have one. Worker threads and arrangement traces are not modelled.
- Translator.TranslateWithStacks: SQL is an expression tree; equal trees stand for equal text, and the text itself, quoting included, is not modelled, nor arithmetic on REAL cells, which the translator rejects.
- Translator.TranslationPreservesMeaning: that stored sort keys order known terms as the engines do, and that each text is interned once, are hypotheses (`Interned`): the keys are written by the dictionary, which is not part of this model.
- Columns.VisitColumns: ASCII text; slicing inside a multi-byte character is not modelled.
- Terms.Runtime.Mint: index keys are pairs of functor and arguments in place of their JSON text.
- Windows and LIMIT groups: rows chosen among ties are unspecified.
- Interned keys: a key is the list of its normalized cells; the dictionary's integer ids, its index and query planning are not modelled.
- Moving WHERE equalities into a comma join before RIGHT or FULL joins.
- The row checksum itself, affinity checks of source values, tracing, prepared statements, virtual tables, catalog, migrations, source triggers and the batch collector.
- The differential, DBSP and DuckDB process runtimes beyond the pieces above, and all benchmark drivers except the reachability oracle.
