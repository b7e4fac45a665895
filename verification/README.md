# RuleGo in Dafny

RuleGo runs messages through rule chains: graphs of node components joined by named relations. This
project models the parts of it whose correctness is hard to see from the code and proves what they
promise, over all inputs, all interleavings and all runs:

- **the run of a message** (`Engine*.dfy`): a step machine over the tree of contexts that one message
  spawns, with one step per atomic action of the code. A schedule is any sequence of steps.
  Completion, exactly which results runs have, sub-chains called by flow nodes, termination;
- **the context object** (`RuleContext.dfy`, `ContextRun.dfy`): counters, `tell` and message copies on the
  heap, and the isolation of metadata maps between branches over a whole message;
- **chain contexts and the engine** (`ChainContext.dfy`, `RuleEngine.dfy`): loading, the routing index
  and its cache, in-place reloads of chains and nodes, and the life of component instances;
  `ChainRoutes.dfy` ties their lookups to the step machine;
- **the worker pool**: its protocol (`PoolProtocol.dfy`, `PoolRest.dfy`) and its array-backed ready list
  (`WorkerPool.dfy`);
- **joins and breakers**: the group nodes one atomic operation at a time (`GroupActionRace.dfy`,
  `GroupFilterRace.dfy`) and with whole callbacks as steps (`GroupJoin.dfy`), the skip-fallback aspect
  (`SkipFallback.dfy`), the delay node (`DelayNode.dfy`);
- **placeholder substitution** (`Placeholders.dfy`).

`Sums.dfy` holds sums and multiset unions over sequences; `Messages.dfy` holds message values.

`dafny verify dfyconfig.toml` checks everything.

## What turned out not to hold as it stands

Each of these is kept as the code has it, with a failing case and the exact condition under which the
property does hold.

- A run can complete early: if the first child of a fan-out finishes before the loop has counted the
  second, the counter reaches zero and the completion callback runs (`EngineExactness.EarlyCompletion`).
  A run is sound in all its states if and only if no decrement takes a counter to zero inside the
  fan-out loop of its own context (`EngineSafety.SafeSchedules`). The theorems about whole runs are
  stated for such *orderly* schedules. Uninterrupted fan-out loops are enough for that
  (`EngineExactness.AtomicLoopsAreOrderly`). On acyclic chains a message can complete early in some
  interleaving if and only if some run of it gets to a node that fans out (`EngineFanOut.NeverEarlyIff`).
- A `tell` of several relations makes its context report once if and only if it only submits children or is
  a single end (`EngineExactness.ReportsOnceIff`). With two unmatched relations a run completes while an
  end callback is still to run (`EngineExactness.UnbalancedCompletion`), and the same metadata map is
  handed to two end callbacks (`RuleContexts.RuleContext.Tell`).
- What a flow node tells depends on the order in which the ends of its sub-chain arrive, and two runs of one
  message can end differently (`EngineOrder.OrderShows`). On acyclic chains runs have exactly the results of
  a relational evaluator (`EngineOrder.RunsAreEval`), and they equal the walk when flow nodes are blind to
  that order. For a flow node that ends the chain, over a sub-chain whose own runs agree and with an encoding
  that loses nothing, runs agree if and only if all branches of the sub-chain end alike
  (`EngineOrder.FlowAgreesIffAlike`).
- groupAction and groupFilter read their counters separately from adding to them. Exactly one verdict is
  sent in every interleaving, but it is the right one in all of them only under the conditions of
  `GroupActionRace.RightIff` and `GroupFilterRace.RightIff`. Documentation promises it for every group.
- The comment on the skip-fallback aspect says that a node recovers once `LimitDuration` has passed. In the
  code every skipped message is itself recorded as a failure, so steady traffic keeps a node skipped for
  ever (`SkipFallbacks.NeverRecovers`); it happens if and only if every message comes within `LimitDuration`
  of a failure told before it (`SkipFallbacks.NeverRecoversIff`).
- Substitution depends on the order of map iteration when a value contains a placeholder
  (`Placeholders.OrderMatters`), or ends with the beginning of one, and only then
  (`Placeholders.OrderFreeIff`).
- A load that fails leaves the component instances it has already made behind, undestroyed, if and only if
  its first node has a known type (`ChainContexts.LeftBehind`). A load that succeeds does so if and only if
  two nodes have the same id (`ChainContexts.AllUsedIff`). The life-cycle theorem is about instances that
  were put to use.

## Model

| member | source | states |
|---|---|---|
| EngineSafety.PlanOneBalanced | engine.go:299-318 | telling one relation either only submits children or is exactly one end |
| EnginePlans.TargetsExact | chain.go:197-205 | the targets of a relation are those of its routes, all of them, in definition order |
| EnginePlans.PlanExact | engine.go:299-318 | telling one relation submits the target of each route with that relation, in order, or ends the branch with that relation if there is none |
| EnginePlans.PlansInOrder | engine.go:295-319 | several relations are told one after the other; none at all ends the branch with the empty relation |
| EngineSafety.ActivateInv | engine.go:324-344 | activating a node, a panic and a missing sub-chain included, leaves exactly one decrement to come for its parent and a context whose counter agrees with its work |
| EngineSafety.LoopInv | engine.go:303-317 | one turn of the fan-out loop keeps the counter equal to the children not yet reported |
| EngineSafety.DoneInv | engine.go:254-267 | a decrement that is not premature keeps the counter exact, and makes the context report only if it has not reported before |
| EngineSafety.FlowInv | components/flow/flow_node.go:93-97 | when a sub-chain completes, the duty to tell passes to the flow node's own tell, once |
| EngineSafety.StepInv | engine.go:226-344 | every step that is not premature, at any depth, keeps all counters exact; a context reports to its parent at most once |
| EngineSafety.ReportedFinished | engine.go:254-267 | a context that has reported has nothing left under it, and everything under it reported exactly once |
| EngineSafety.Progress | engine.go:226-344 | until a context has reported, some step that is not premature is possible under it |
| EngineSafety.RunInv | engine.go:226-344 | every state of every orderly run has the invariant |
| EngineSafety.CompletionExact | engine.go:560-616 | after any orderly schedule the completion callback has run exactly once, with everything over and no step left, or not at all, with a step possible: never early, never twice, never lost, panics included |
| EngineSafety.PrematureUnsound | engine.go:304-313 | every premature step makes some context report while work is left under it |
| EngineSafety.SafeSchedules | engine.go:304-313 | a run is sound in all its states if and only if its schedule has no premature step |
| EngineExactness.StepNarrow | engine.go:299-318 | without fan-out, a context still telling has nothing outstanding, after every step |
| EngineExactness.NoFanOutIsSafe | engine.go:299-318 | on chains without fan-out every possible schedule is orderly |
| EngineExactness.AtomicLoopsAreOrderly | engine.go:304-313 | if every fan-out loop runs uninterrupted the schedule is orderly |
| EngineExactness.ReportsOnceIff | engine.go:290-321 | the schedule of machine steps that runs the decrements left due by one tell, in any order, makes its context report exactly once if and only if the tell only made children or was a single end |
| EngineExactness.UnbalancedCompletion | engine.go:299-318 | an orderly run of a node that tells two unmatched relations completes while the second end callback has still to run |
| EngineExactness.EarlyCompletion | engine.go:304-313 | a run of a three-node chain that completes with one branch not even submitted |
| EngineFanOut.LeftAlone | engine.go:254-344 | every step that can be made where a loop is gone can be made where it is left alone, at any depth, with the same outcome |
| EngineFanOut.HeldUpCompletes | engine.go:254-313 | while a fan-out loop is not over and something it submitted is outstanding, everything else can run to its end, and the message completes with the loop not over |
| EngineFanOut.StepStaysNarrow | engine.go:299-318 | as long as no reached context has two children to submit, a context still telling has nothing outstanding |
| EngineFanOut.NeverEarlyIff | engine.go:254-318 | on acyclic chains, no interleaving at all runs the completion callback with anything left to do if and only if no run of the message gets to a node that fans out; the same holds for every schedule being orderly |
| EngineRefinement.StepYields | engine.go:226-344 | what the rest of a run can end with, after a step, plus the end callback of that step, is what it could end with before |
| EngineRefinement.RunYields | engine.go:226-344 | along any orderly completing schedule, the end callbacks made are a possible yield of the state it starts from |
| EngineRefinement.RunsRefineEval | engine.go:226-344 | for every orderly completing schedule, on every nesting of chains, the end callbacks are a result of the relational evaluator of the chain |
| EngineWalk.WalkIsEval | chain.go:183-212 | on acyclic chains the recursive walk is a result of the evaluator |
| EngineWalk.SingleEndsAreBlind | components/flow/flow_node.go:74-97 | if no sub-chain ends more than once, no flow node depends on arrival order |
| EngineWalk.OneResultIff | components/flow/flow_node.go:74-97 | a flow node that ends the chain, over a sub-chain with one evaluation result, has one result if and only if its message does not depend on arrival order |
| EngineWalk.EvalIsWalk | engine.go:278-344 | on acyclic chains whose flow nodes are blind to arrival order, the walk is the only result |
| EngineWalk.RunsEqualWalk | engine.go:278-344 | there, every orderly completing schedule makes exactly the end callbacks of the walk, as a multiset of node, message, error and relation |
| EngineReach.DrainLoop | engine.go:290-344 | a fan-out can be driven to its end, every child activated, with nothing ended and nothing reported, keeping the wanted result |
| EngineReach.FireOne | engine.go:226-245 | any end that a drained context still has to make can be the next one |
| EngineReach.RunDown | engine.go:254-267 | when only decrements are left they run down to exactly one completion |
| EngineReach.Reach | engine.go:226-344 | on acyclic chains every result of the evaluator, in every order of its ends, is made by some orderly completing schedule, in that order |
| EngineOrder.RunsAreEval | engine.go:226-344 | runs and evaluator have exactly the same results |
| EngineOrder.AgreeIff | engine.go:226-344 | all runs make the same end callbacks if and only if the walk is the only result |
| EngineOrder.FlowAgreesIff | components/flow/flow_node.go:74-97 | over a sub-chain whose runs agree, the runs of a flow node that ends the chain agree if and only if it is blind to arrival order |
| EngineOrder.BlindIffAlike | components/flow/flow_node.go:74-97 | with an encoding that loses nothing, a flow node is blind exactly if all ends have the same message, error text and node |
| EngineOrder.FlowAgreesIffAlike | components/flow/flow_node.go:74-97 | so, over a sub-chain whose runs agree, its runs agree if and only if all branches of the sub-chain end alike |
| EngineOrder.OrderShows | components/flow/flow_node.go:84-95 | two orderly completing schedules of one message through one chain, with different end callbacks |
| EngineFlow.FlowsAreExact | components/flow/flow_node.go:69-98 | in every reachable state, at every nesting depth, a context with a sub-chain not completed tells nothing, owes nothing and has not reported; a completed sub-chain is finished, completed once, and what was collected is a result of it |
| EngineFlow.CalledExact | engine.go:184-190 | a called sub-chain that completed did so once, with nothing left, with the ends of an evaluation |
| EngineFlow.OneWrapperPerEnd | components/flow/flow_node.go:74-91 | the told message wraps exactly one entry per end, in arrival order |
| EngineFlow.WrapCollects | components/flow/flow_node.go:70-97 | the collected message is JSON with the id, time and type of the incoming one; its data encode one entry per end with that end's message, error text and node id, in arrival order; a key has the value of the last branch without error that has it, and otherwise its old one |
| EngineFlow.FlowTellsCollected | components/flow/flow_node.go:93-97 | when its sub-chain completes, a flow node tells Success, without an error, exactly that message |
| EngineFlow.FlowRunEnds | components/flow/flow_node.go:69-98 | every completed run of a flow node that ends the chain makes one end callback, with Success and what it collected from a result of its sub-chain |
| EngineFlow.MissingChainEnds | engine.go:184-190 | every completed run of a flow node whose sub-chain is missing ends with Failure and an error that names the chain |
| EngineFlow.LastNodeEnds | engine.go:299-318 | every completed run of a node with no connection for what it tells ends with exactly the message, error and relation told |
| EngineTermination.StepLighter | engine.go:290-344 | every step of an orderly run lowers a weight computed from pending work and the chain definition |
| EngineTermination.RunsAreBounded | engine.go:290-344 | on acyclic chains no orderly schedule is longer than the weight of the first node |
| EngineTermination.EveryRunCompletes | engine.go:290-344 | there, every orderly run is bounded and, wherever it stands, continues to a completion |
| RuleContexts.BuildMetadata | api/types/msg.go:49-55 | a new map object with the same entries, whatever the iteration order |
| RuleContexts.CopyMsg | api/types/msg.go:111-132 | a copy has a metadata map of its own with equal contents; a stamped message keeps every other field |
| RuleContexts.CopyIsExact | api/types/msg.go:130-132 | the task of a child has every field and every metadata entry of the told message |
| RuleContexts.RealisesExactly | engine.go:303-317 | an end task carries the very message, error and relation that were told; a child's task is for its node, on a copy |
| RuleContexts.WriteAll | api/types/msg.go:75-79 | the effect of any number of writes in place |
| RuleContexts.WrittenKey | api/types/msg.go:75-79 | a key has what was written to it last |
| RuleContexts.UnwrittenKey | api/types/msg.go:75-79 | otherwise it has what it had, and nothing is written to the empty key |
| RuleContexts.StepIsLink | engine.go:254-267 | one atomic decrement of the step machine is one link of an uninterrupted chain of `childDone` calls |
| RuleContexts.RuleContext.ChildDone | engine.go:254-267 | the counters up to the root change as one decrement bubbling up; the root's completion is called exactly when it passes them all and was not called before |
| RuleContexts.RuleContext.TellFirst | engine.go:278-287 | submits the first node on a copy, without counting it; separate tasks stay separate |
| RuleContexts.RuleContext.SubmitChildren | engine.go:303-313 | one counted task per target, in order, each with a fresh copy of the message |
| RuleContexts.RuleContext.TellOne | engine.go:303-317 | submits exactly the actions planned for one relation and counts the children |
| RuleContexts.RuleContext.Tell | engine.go:290-321 | submits exactly the planned actions of all relations; pending tasks keep pairwise distinct metadata maps if and only if at most one branch ended |
| RuleContexts.SeparateIff | engine.go:299-318 | what a tell submits shares no metadata map if and only if it ended at most one branch |
| RuleContexts.RunNodeTask | engine.go:324-344 | a node writes into its metadata and tells: the writes are there, what every other pending task sees is unchanged, the new tasks are exactly the planned ones, on fresh maps or the one handed over, and all tasks stay separate if and only if at most one branch ended |
| ContextRuns.RunOff | engine.go:236-240 | an end callback returns, or a node panics, after any writes: what other tasks see is unchanged, and the decrement bubbles up |
| ContextRuns.OneRelationEndsOnce | engine.go:299-318 | telling one relation, or none, ends at most one branch wherever it is told |
| ContextRuns.Step | engine.go:278-344 | running any pending task whose tell ends at most one branch: its writes are there, a node that tells submits its plan, an end callback or a panic decrements its context; what the other tasks see is unchanged, and all tasks stay on maps of their own, with maps and contexts that were known or are new |
| ContextRuns.RunMessage | engine.go:278-344 | beside the tasks of other messages, for every order of running tasks, all writes and all panics, up to the first tell that would end two branches: the pending tasks hold pairwise different maps, none of them the caller's, and the caller's map is unchanged |
| ChainContexts.Registry.NewNode | node.go:40-59 | an instance is made exactly for a known type, returned exactly if it initialised, and remembers what it was built from |
| ChainContexts.LeftBehind | chain.go:84-95 | a load makes one instance per node before the first failing one, plus one if that fails in Init; a failed load leaves something behind if and only if its first node has a known type |
| ChainContexts.AllUsedIff | chain.go:84-95 | a load that succeeds puts every instance it made to use if and only if the ids are distinct |
| ChainContexts.RuleNodeCtx.ReloadSelf | node.go:69-103 | on success the node holds a new instance built from the new contents and the old one is destroyed once; on failure nothing changes; the id never does |
| ChainContexts.IndexAgrees | chain.go:97-113 | resolving through the routing index gives what a scan of all connections gives, in definition order |
| ChainContexts.ScanExact | chain.go:195-206 | the scan finds the targets of exactly the connections with that source and relation whose target exists, in definition order |
| ChainContexts.RuleChainCtx.GetFirstNode | chain.go:162-173 | the node that the definition's first index points to, if it points to one |
| ChainContexts.RuleChainCtx.Follow | chain.go:195-206 | the lookup loop yields the resolved targets of one relation and whether there are any |
| ChainContexts.RuleChainCtx.GetNextNodes | chain.go:183-212 | cached or not, the list is the scan of the definition and the flag says whether it is empty; the cache stays correct |
| ChainRoutes.TargetsAreScanned | chain.go:183-212 | the children that a tell plans for are, in order, the nodes that a scan of the chain definition finds |
| ChainRoutes.NextTargets | engine.go:270-275 | a lookup through cache and index gives exactly the fan-out of the step machine |
| ChainContexts.RuleChainCtx.Copy | chain.go:297-314 | takes over definition, nodes, routes and running context of the other object and has a correct (empty) cache |
| ChainContexts.RuleChainCtx.ReloadSelf | chain.go:264-276 | a failed load changes nothing; a successful one destroys each old instance once, and this object and the new running object share the new, fresh, healthy parts |
| ChainContexts.RuleChainCtx.ReloadChild | chain.go:278-289 | replaces exactly one instance and one definition's contents; an unknown id changes nothing and is not an error |
| ChainContexts.LoadNode | chain.go:84-94 | a fresh definition, node context and instance under the given id, or nothing |
| ChainContexts.LoadedNext | chain.go:84-95 | adding a node keeps: printed definition equals the input, every node under its own id and the last with it, instances genuine and distinct |
| ChainContexts.LoadedAsGiven | chain.go:84-94 | every node is loaded with the id it was given, or else "node" and digits that read back as its place, and with its type and settings |
| ChainContexts.DecimalReads | chain.go:85-87 | the digits made up for a place stand for that place |
| ChainContexts.ConnectionsLead | chain.go:97-113 | a connection to a node with a given id is found by lookups in the loaded chain |
| ChainContexts.LoadNodes | chain.go:84-95 | loads all nodes if and only if every one of them loads, and then prints the input with ids filled in; failed or not, makes exactly the instances of LeftBehind |
| ChainContexts.LoadRoutes | chain.go:97-113 | the index lists for every node its outgoing connections in definition order |
| ChainContexts.InitRuleChainCtx | chain.go:68-143 | a whole valid chain running through itself (if it has a first node), all of whose instances are in use if and only if the ids are distinct; or nothing but the instances made before the failure |
| ChainContexts.DestroyAll | chain.go:243-249 | destroys every instance in use exactly once, whatever the iteration order |
| RuleEngines.LedgerSwap | chain.go:264-289 | replacing instances in use keeps: of all instances ever used, exactly those not in use were destroyed, each once |
| RuleEngines.BooksReplaced | chain.go:264-270 | the same for a whole chain reload, with genuine new instances |
| RuleEngines.BooksSwapped | node.go:69-103 | the same for the reload of a single node |
| RuleEngines.PrintedIsRunning | chain.go:291-294 | what `DSL` prints for a node is what the running node of that id holds and was built from, exactly for nodes not hidden by a later one with the same id |
| RuleEngines.DistinctAreLast | chain.go:84-95 | with distinct ids no node is hidden |
| RuleEngines.RuleEngine.Create | engine.go:446-465 | without a chain: the engine serves the given definition, or stays empty |
| RuleEngines.RuleEngine.Reload | engine.go:439-445 | with a chain: the same root object serves the new definition and the books balance, or nothing changes |
| RuleEngines.RuleEngine.ReloadSelf | engine.go:434-468 | both cases; after every call root and running context share their parts and the books balance; every instance of a failed load is left unused and undestroyed, and no later call puts it to use |
| RuleEngines.RuleEngine.ReloadNode | chain.go:278-289 | one instance replaced in the running chain, all others as they were, books balanced |
| RuleEngines.RuleEngine.ReloadChild | engine.go:473-485 | succeeds exactly when the text is not empty, a chain is loaded, and the chain (no id) or node (known id) loads, or the id is unknown; a known node then holds a new instance of the new contents and every other node what it held |
| RuleEngines.RuleEngine.NextNodes | engine.go:560-563 | after any sequence of calls, what a running message finds next is a scan of the definition that the engine prints |
| RuleEngines.RuleEngine.Stop | engine.go:523-528 | afterwards every instance ever used has been destroyed exactly once |
| GroupActionRace.StepInv | components/action/group_action_node.go:122-158 | each atomic operation keeps the shared counters equal to the callbacks past their additions, and never leaves a full group without a callback that will decide |
| GroupActionRace.OneVerdict | components/action/group_action_node.go:122-158 | in every interleaving at most one verdict is sent, exactly one when all callbacks are over, and a Success only with at least MatchNum matching children |
| GroupActionRace.SuccessIsBacked | components/action/group_action_node.go:129-147 | when a Success is sent, the results of at least MatchNum matching children are in their slots |
| GroupActionRace.WrongFailure | components/action/group_action_node.go:136-154 | an interleaving in which the group fails although enough children match |
| GroupActionRace.RightIff | components/action/group_action_node.go:122-158 | the verdict is right in every interleaving if and only if too few children match, or all match and one is enough |
| GroupFilterRace.OneVerdict | components/filter/group_filter_node.go:97-117 | exactly one verdict; an all-match False has a child that is not True, an any-match True has a True child |
| GroupFilterRace.LazyWins | components/filter/group_filter_node.go:97-117 | an interleaving in which a child that should wait for the others decides the group |
| GroupFilterRace.RightIff | components/filter/group_filter_node.go:97-117 | the verdict is the conjunction or disjunction in every interleaving if and only if the children agree |
| GroupJoin.FilterEmpty | components/action/group_action_node.go:179-187 | returns the results that are there, in group order |
| GroupJoin.NonEmptyKeeps | components/action/group_action_node.go:179-187 | filtering loses no result and keeps no empty slot |
| GroupJoin.NonEmptyFull | components/action/group_action_node.go:179-187 | filtering is the identity on a full group |
| GroupJoin.NonEmptyInOrder | components/action/group_action_node.go:179-187 | filtering goes piece by piece, so results stay in order |
| GroupJoin.PutEach | components/action/group_action_node.go:193-195 | the same merged map for every iteration order |
| GroupJoin.MergeMetadata | components/action/group_action_node.go:190-198 | the loop over the results computes the merged metadata of MergedMerges, whatever the order of map iteration |
| GroupJoin.MergedMerges | components/action/group_action_node.go:190-198 | a key of the merged metadata has the value of the last result without error that has it, and otherwise what the message had; the empty key is never touched |
| GroupJoin.MergedKey | components/action/group_action_node.go:190-198 | a merged key has the value of the last result without error that has it |
| GroupJoin.UnmergedKey | components/action/group_action_node.go:190-198 | a key that no result without error has stays as it was, present or not |
| GroupJoin.ActionJoin.HitsAreMatches | components/action/group_action_node.go:138-140 | the match counter counts exactly the arrivals with the configured relation |
| GroupJoin.ActionJoin.constructor | components/action/group_action_node.go:81-88 | MatchNum is normalised into 1..n, an empty relation means Success |
| GroupJoin.ActionJoin.Callback | components/action/group_action_node.go:122-158 | a whole callback keeps: undecided below the limits, or decided rightly for the reports so far |
| GroupJoin.ActionJoin.Join | components/action/group_action_node.go:119-171 | for every arrival order of one report per child the group succeeds if and only if at least MatchNum of them have the configured relation; a Success wraps exactly the results up to the arrival that made MatchNum, a failure all of them; the told metadata are the message's under those of the wrapped results |
| GroupJoin.ActionOrder | components/action/group_action_node.go:119-171 | arrival order does not change the verdict |
| GroupJoin.FilterJoin.Callback | components/filter/group_filter_node.go:97-117 | a whole callback decides as soon as the reports so far do |
| GroupJoin.FilterJoin.Join | components/filter/group_filter_node.go:96-130 | for every arrival order the verdict is the conjunction or disjunction of the reports |
| GroupJoin.FilterOrder | components/filter/group_filter_node.go:96-130 | arrival order does not change the verdict |
| PoolProtocol.StepOwned | pool/workerpool.go:161-247 | every move keeps: each live channel is in exactly one hand, every other channel in none |
| PoolProtocol.StepConserved | pool/workerpool.go:161-247 | every move keeps: accepted functions are those run, with a submitter, in a channel or running |
| PoolProtocol.StepSorted | pool/workerpool.go:184-227 | every move keeps the ready list in order of last use |
| PoolProtocol.StepCount | pool/workerpool.go:184-247 | the worker count is the number of live workers and never exceeds the maximum |
| PoolProtocol.StepInv | pool/workerpool.go:84-247 | every move keeps all of these, and a stopped pool stays stopped with nothing ready |
| PoolProtocol.Reachable | pool/workerpool.go:84-247 | every interleaving of submit, run, release, clean and stop keeps the invariant |
| PoolProtocol.SendsNeverBlock | pool/workerpool.go:84-168 | no send of the pool ever waits for room, so none blocks under the lock |
| PoolProtocol.Quiescence | pool/workerpool.go:161-247 | when nothing is left to do every accepted function has run exactly once; after a stop every worker has exited |
| PoolRest.InternalLighter | pool/workerpool.go:149-247 | every move the pool makes on its own lowers a bound on such moves |
| PoolRest.ReachesRest | pool/workerpool.go:149-247 | from every state the pool's own moves can go on to a state of rest |
| PoolRest.ComesToRest | pool/workerpool.go:84-247 | they come to an end however they are chosen, with everything accepted run once and, after a stop, no worker left |
| PoolProtocol.CleanExact | pool/workerpool.go:114-158 | cleaning takes exactly the workers last used before the cutoff and keeps the others in order |
| PoolProtocol.TakesLatest | pool/workerpool.go:196-200 | a submission with a ready worker goes to the one used last |
| PoolProtocol.RefusedIff | pool/workerpool.go:191-206 | a submission is refused if and only if no worker is ready and the maximum of them is live; a worker is made only when none is ready |
| PoolProtocol.ReleaseStamps | pool/workerpool.go:217-227 | a released worker is last in the list with the time of its release, unless the pool was stopped |
| PoolProtocol.ReadyDistinct | pool/workerpool.go:184-227 | no worker is ready twice |
| WorkerPools.WorkerPool.GetCh | pool/workerpool.go:184-201 | the most recently used worker is taken off the end; or none, and a new one is counted exactly if there is room |
| WorkerPools.WorkerPool.Release | pool/workerpool.go:217-227 | stamps and appends, unless stopped; the list stays duplicate-free and in order |
| WorkerPools.WorkerPool.FindObsolete | pool/workerpool.go:125-135 | the binary search finds the last worker used before the cutoff, on every list in order |
| WorkerPools.WorkerPool.Shift | pool/workerpool.go:142 | the overlapping copy moves the tail to the front unchanged |
| WorkerPools.WorkerPool.Compact | pool/workerpool.go:142-146 | in place, the list becomes its tail and the slots behind it are cleared |
| WorkerPools.WorkerPool.Clean | pool/workerpool.go:114-147 | splits the list into exactly the obsolete workers and the rest, in order |
| WorkerPools.WorkerPool.Stop | pool/workerpool.go:94-102 | the list is emptied for good and exactly its workers are told to quit |
| SkipFallbacks.LastClear | aspect/skip_fallback_aspect.go:74-152 | the last reload, destroy or expiry that concerns a node, with none after it |
| SkipFallbacks.TallyNext | aspect/skip_fallback_aspect.go:95-152 | how one event changes the failures since the last clear |
| SkipFallbacks.OthersDoNotCount | aspect/skip_fallback_aspect.go:95-152 | events of other nodes and chains do not count |
| SkipFallbacks.SkipsExactly | aspect/skip_fallback_aspect.go:76-89 | the rule skips if and only if the node told Failure at least once and at least the limit of times since its last clear, the latest time within the limit duration; it clears if and only if only the last part fails |
| SkipFallbacks.SkipFallback.After | aspect/skip_fallback_aspect.go:95-131 | a Failure adds one to the node's count and sets its time, anything else changes nothing; so count and time stay those of the Failure results since the last clear |
| SkipFallbacks.SkipFallback.Around | aspect/skip_fallback_aspect.go:74-92 | skips if and only if the events since the last clear demand it, by count and by time; below the limit the node runs and nothing stored changes; a skip is recorded as a failure |
| SkipFallbacks.SkipFallback.OnReloadNode | aspect/skip_fallback_aspect.go:134-145 | clears the node's failures, successful reload or not |
| SkipFallbacks.SkipFallback.OnChainGone | aspect/skip_fallback_aspect.go:134-152 | clears the failures of all nodes of the chain |
| SkipFallbacks.SkipFallback.Activate | engine.go:324-344 | every activation ends in exactly one telling, skipped or not; a panic tells nothing and records the incoming relation against the parent |
| SkipFallbacks.SkippedForever | aspect/skip_fallback_aspect.go:74-92 | once skipped, a node is skipped for every later message as long as gaps stay within the limit duration |
| SkipFallbacks.NeverRecoversIff | aspect/skip_fallback_aspect.go:74-131 | after a skip, with no reload, all later messages are skipped if and only if each comes within the limit duration of a failure told before it, skips included |
| SkipFallbacks.SkipFallback.Judge | aspect/skip_fallback_aspect.go:76-91 | the same from the stored record alone, which expires if and only if it is over the limit and too old |
| SkipFallbacks.SkipFallback.Flood | aspect/skip_fallback_aspect.go:74-131 | any number of messages in close succession for a node over the limit are answered with Failure, whatever the node would do |
| SkipFallbacks.NeverRecovers | aspect/skip_fallback_aspect.go:41-44 | a node that failed to the limit at time 0 and works ever after is not run for any of n messages that come one limit duration apart |
| DelayNodes.HistoryNext | components/action/delay_node.go:97-153 | how one call changes running timers, latest arrival and accepted arrivals |
| DelayNodes.DelayNode.OnMsg | components/action/delay_node.go:97-153 | after every history with distinct non-empty ids the map holds exactly the messages that wait, within the limit, and every call did what the history demands, unknown acknowledgements and bad periods included |
| DelayNodes.Conserved | components/action/delay_node.go:97-153 | accepted messages have been delivered or are still waiting, by number |
| DelayNodes.ArrivalAnswered | components/action/delay_node.go:120-151 | normal mode: an arrival is refused as over the limit if and only if that many accepted messages are undelivered; otherwise it fails on an unreadable period or starts a timer of its own or the set period; never Success |
| DelayNodes.OverwriteAnswered | components/action/delay_node.go:115-151 | overwrite mode: an arrival goes unanswered if and only if a message is undelivered; otherwise it fails on its period or starts its timer |
| DelayNodes.AckAnswered | components/action/delay_node.go:99-113 | an acknowledgement delivers if and only if an accepted message with its id is unacknowledged, and otherwise is told that there is none |
| DelayNodes.DeliveredOnce | components/action/delay_node.go:99-113 | normal mode: a delivery hands back the accepted message unchanged and no other does so again |
| DelayNodes.EventuallyDelivered | components/action/delay_node.go:99-113 | an accepted message whose timer is no longer running has been delivered |
| DelayNodes.DeliversLatest | components/action/delay_node.go:115-119 | overwrite mode: what is delivered is the latest arrival of all |
| Placeholders.ProcessVarIsPut | utils/str/str.go:61-64 | replacing a key in text that cannot be taken for it puts its value in place of exactly its own placeholders |
| Placeholders.AnyOrder | utils/str/str.go:53-59 | if no value does harm, for every order of keys the result is simultaneous substitution |
| Placeholders.SprintfVar | utils/str/str.go:53-59 | whatever the iteration order, if no value does harm clean text comes out as if substituted at once, unknown placeholders unchanged |
| Placeholders.PlainValuesAreHarmless | utils/str/str.go:53-64 | values without a dollar sign do no harm |
| Placeholders.Harm | utils/str/str.go:53-64 | a harmful value has a clean pattern and two orders that give different results |
| Placeholders.OrderFreeIff | utils/str/str.go:53-64 | with names for keys, all orders agree on every clean pattern, and with simultaneous substitution, if and only if no value contains, or ends with a beginning of, the placeholder of another key (a key standing for its own placeholder excepted) |
| Placeholders.OrderMatters | utils/str/str.go:53-64 | two orders, two results, when a value contains a placeholder |

## Left out

Assumptions that the statements make:

- Runs: `Submit` succeeds (engine.go:172-174 only logs a dropped task); every activation tells once, so nodes that tell many times (jsSwitch, iterator) are not covered; connections are NODE-typed; end callbacks do not panic, and nodes panic before they tell (a panic afterwards would decrement the parent a second time, engine.go:326-333); the engine that a flow node calls has not been stopped (otherwise it only logs, engine.go:612-615, and the flow node never tells); collecting one end of a sub-chain is one step, where the code locks only part of the callback.
- Runs: an empty but non-nil list of relations never completes; `TellsOnce` excludes it, and `ReportsOnceIff` shows why.
- Chains: acyclicity, which the repository's README.md asks for and the code does not check, is a hypothesis (`Ranked`) where it is needed; so is a bound on the number of relations told at once for termination and for `EngineFanOut.NeverEarlyIff`.
- EngineWalk.EvalIsWalk: blindness to arrival order is sufficient; that it is necessary is shown for flow nodes that end the chain only, because a node behind a flow node may ignore the difference.
- Messages are stamped, as `NewMsg` makes them; `Copy` would give others a new id or time on every copy.
- RuleContexts: `ChildDone` runs uninterrupted up to the root; interleaved decrements are the step machine's.
- ChainContexts: `GetNextNodes` and `Copy` are atomic, where the code takes its locks piecewise.
- PoolProtocol and WorkerPools: a release stamps and appends in one step with a clock that does not go back; channels have capacity one, not zero (the code uses zero on one processor); submitted functions do not panic.
- GroupJoin.ActionJoin.Join: one report per child and no timeout; an empty group never gets that far, the code tells Failure before.
- SkipFallbacks: each aspect call is one step; no custom PointCutFunc.
- DelayNodes: one call of `OnMsg` is one step, where the code unlocks between counting and inserting; arrivals carry distinct non-empty ids; the text of a number-parsing error is a constant.
- Integers are unbounded: counters stay below 2^31, times and periods below the width of the code's integers.

Not modelled:

- Endpoints, external nodes, JS and expression engines: input and output around other libraries; a node is an arbitrary function of its message.
- JSON and configuration decoding: what a text decodes to is a parameter, encoding of results is an arbitrary function.
- Deprecated `ruleChainConnections`, chain ids (overwritten by a reload), debug callbacks, the global `Config.OnEnd`.
- Start, End, Completed and Before aspects, taken as absent; what a Before aspect returns never reaches `OnMsg`.
- Component registry, engine pool and function registry: plain map operations.
