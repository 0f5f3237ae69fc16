# A verified model of the prioritised parallel execution strategy and the StarWars character store

This project models two parts of a GraphQL.NET extension:

- **PrioritisedParallelExecutionStrategy** executes a GraphQL execution-node tree in waves.
  It keeps four working collections:
  - a FIFO queue of ready nodes;
  - a list of deferred data-loader nodes;
  - two parallel lists of in-flight tasks and in-flight nodes.

  A run goes like this:
  - **Dispatch.** Ready nodes are started while the in-flight count is below `MaxParallelExecutionCount`.
  - **Wave.** The in-flight set is awaited as one wave.
  - **Classification.** Every finished node is classified. A data-loader result is deferred, and a parent node enqueues its children.
  - **Flush.** When nothing is ready or in flight, the deferred loaders that have a descendant exposing a type some deferred loader exposes are flushed first. This is the "priority" set. The remaining loaders are flushed only when the priority set is empty.
  - **Buffer return.** On every way out, the four buffers are cleared and handed back to reusable slots.
- **StarWarsData** is the in-memory store behind the sample schema. It holds two lists of characters, and offers the friend, id and batch queries the resolvers and data loaders call, plus `AddHuman`.

The model has seven files:

- `wrappers.dfy`: `Option` and `Result`.
- `linq.dfy`: the .NET collection operations the code relies on, as functions on sequences, with their properties:
  - `Where`, `Except`, `List.Remove`;
  - `FirstOrDefault`, `ToLookup`.
- `graph_types.dfy`: the part of a schema and a query document the priority test inspects. It also gives concrete bodies for the three GraphQL.NET helpers the test calls: `CollectFieldsFrom`, `GetFieldDefinition` and `BuildExecutionNode`.
- `classifier.dfy`: `GetGraphTypes` and `HasChildOfGraphType`. The second is evaluated as the LINQ query does: in order, stopping at the first hit, and raising the first exception met. It is proved equal to a declarative predicate, `Reaches`.
- `execution_model.dfy`: the scheduler as a state machine on values. A `Schedule` holds the four working collections and a ghost history of the run. Step functions cover dispatch, wave, classification and flush, and lemmas state what every step keeps:
  - the bound;
  - FIFO order from the root;
  - parallel in-flight lists;
  - deferred nodes that are data-loader results;
  - every node of the tree accounted for exactly once;
  - a decreasing measure.

  The two loops become `Waves` (the inner loop), `Pass` (the inner loop, then the flush) and `Run` (the outer loop). `Ended` says how a run ends.
- `execution_strategy.dfy`: `ExecuteNodeTreeAsync` as imperative code over `Queue`/`List` objects and the four reusable slots. Each method keeps a ghost `Schedule` mirroring its buffers, and is proved to perform the matching step or loop function.
- `star_wars_data.dfy`: the store as a class with `humans` and `droids` fields. The queries are functions that read them, and `AddHuman` is a method that appends.

Each node carries a script instead of running a resolver:
- whether `ExecuteNodeAsync` completes synchronously;
- what result it leaves: a value, a parent with its child nodes, or a data-loader result;
- for a data-loader result, what completing that loader yields.

Awaiting a wave is one step in which every in-flight task completes.

## Model

| member | source | states |
|---|---|---|
| Linq.Where | GraphQL.ExecutionStrategy/PrioritisedParallelExecutionStrategy.cs:108-110 | LINQ Where keeps exactly the elements satisfying the test, each as often as the input holds it |
| Linq.WhereNot | GraphQL.ExecutionStrategy/PrioritisedParallelExecutionStrategy.cs:112-114 | the complementary filter: exactly the elements failing the test, each as often as the input holds it |
| Linq.WhereNotSubsequence | GraphQL.ExecutionStrategy/PrioritisedParallelExecutionStrategy.cs:112-114 | the complementary filter keeps the order of its input |
| Linq.Except | GraphQL.ExecutionStrategy/PrioritisedParallelExecutionStrategy.cs:112-114 | LINQ Except yields exactly the elements not excluded, each at most once |
| Linq.ExceptOfWhere | GraphQL.ExecutionStrategy/PrioritisedParallelExecutionStrategy.cs:108-114 | on a list without repeats, Except by a filter's own output is the complementary filter, and the two halves together are a permutation of the list |
| Linq.RemoveFirst | GraphQL.ExecutionStrategy/PrioritisedParallelExecutionStrategy.cs:145 | List.Remove drops the first occurrence of a present element, keeping the others in order (DropsFirst), and changes nothing otherwise |
| Linq.RemoveEachWhere | GraphQL.ExecutionStrategy/PrioritisedParallelExecutionStrategy.cs:116-119 | on a list without repeats, removing one by one the elements a filter keeps leaves exactly the complementary filter, in order |
| Linq.RemoveEach | GraphQL.ExecutionStrategy/PrioritisedParallelExecutionStrategy.cs:142-145 | removing each element of a sub-multiset leaves exactly the multiset difference |
| Linq.FirstOrDefault | StarWars/StarWarsData.cs:79-87 | FirstOrDefault is null exactly when nothing matches, and otherwise the first matching element |
| Linq.ValuesOf | StarWars/StarWarsData.cs:69-77 | the values paired with a key are exactly those of the pairs carrying it |
| Linq.ValuesOfAppend | StarWars/StarWarsData.cs:69-77 | a key's group keeps the order of the pairs: the values from an earlier run of pairs come before those of a later run, and one pair gives its value alone |
| Linq.ToLookup | StarWars/StarWarsData.cs:69-77 | ToLookup has a key exactly when a pair carries it, with all its values and never an empty group |
| Linq.ToLookupSound | StarWars/StarWarsData.cs:69-77 | every value under a key of the lookup was paired with that key |
| GraphTypes.DoesFragmentConditionMatch | GraphQL.ExecutionStrategy/PrioritisedParallelExecutionStrategy.cs:186 | a fragment without type condition always applies, and one naming an unknown type never does |
| GraphTypes.CollectFields | GraphQL.ExecutionStrategy/PrioritisedParallelExecutionStrategy.cs:186 | the collected selections are fields, each strictly smaller than the selection set it came from |
| GraphTypes.FieldDefinition | GraphQL.ExecutionStrategy/PrioritisedParallelExecutionStrategy.cs:190 | a field other than __typename is defined only on an object type that declares it |
| GraphTypes.BuildExecutionNode | GraphQL.ExecutionStrategy/PrioritisedParallelExecutionStrategy.cs:192 | a built child node keeps its field's selection set |
| Classifier.GetGraphTypes | GraphQL.ExecutionStrategy/PrioritisedParallelExecutionStrategy.cs:151-177 | a value node exposes no type; in a well-formed schema every exposed type is an object type |
| Classifier.ObjectTypesOf | GraphQL.ExecutionStrategy/PrioritisedParallelExecutionStrategy.cs:166-176 | the switch on the declared type after removing non-null; its cases are stated by Classifier.GetGraphTypesCases |
| Classifier.GetGraphTypesCases | GraphQL.ExecutionStrategy/PrioritisedParallelExecutionStrategy.cs:161-176 | non-null is unwrapped and object and array nodes agree; an interface gives its possible types, an object type itself alone, and a union, a scalar or an unknown name nothing |
| Classifier.ChildNode | GraphQL.ExecutionStrategy/PrioritisedParallelExecutionStrategy.cs:186-192 | the child built for a field keeps its selection set; a field with no definition raises |
| Classifier.TypenameChild | GraphQL.ExecutionStrategy/PrioritisedParallelExecutionStrategy.cs:190-193 | in a well-formed schema, which holds the built-in String scalar, selecting __typename builds a value node, and the test below it answers false without raising |
| Classifier.HasChildOfGraphType | GraphQL.ExecutionStrategy/PrioritisedParallelExecutionStrategy.cs:179-195 | false when the node exposes no type; when it returns, true exactly when some selected child exposes a searched type or recursively qualifies (Reaches); it returns whenever the query fits the schema |
| Classifier.AnyGraphType | GraphQL.ExecutionStrategy/PrioritisedParallelExecutionStrategy.cs:185-194 | the outer Any over the node's object types: true exactly when some type has a qualifying field |
| Classifier.AnyField | GraphQL.ExecutionStrategy/PrioritisedParallelExecutionStrategy.cs:193 | the inner Any over collected fields: true exactly when some field's child exposes a searched type or reaches one |
| ExecutionModel.Initial | GraphQL.ExecutionStrategy/PrioritisedParallelExecutionStrategy.cs:32-33 | the root alone on the queue and nothing else held; ExecutionModel.InitialInv states that it meets the run invariant |
| ExecutionModel.Complete | GraphQL.ExecutionStrategy/PrioritisedParallelExecutionStrategy.cs:59-66 | classifying a completed node, as at :59-66 and :89-96; ExecutionModel.CompleteWork and ExecutionModel.CompleteShape state what it keeps |
| ExecutionModel.Start | GraphQL.ExecutionStrategy/PrioritisedParallelExecutionStrategy.cs:49-73 | dequeuing and running the next ready node; ExecutionModel.StartInv states what it keeps and that the cost goes down |
| ExecutionModel.DispatchReady | GraphQL.ExecutionStrategy/PrioritisedParallelExecutionStrategy.cs:46-75 | the dispatch loop with its bound and cancellation check; ExecutionModel.DispatchInv states its stopping conditions and the bound |
| ExecutionModel.CompleteAll | GraphQL.ExecutionStrategy/PrioritisedParallelExecutionStrategy.cs:87-97 | classifying the wave's nodes in order; ExecutionModel.CompleteAllFacts states what it keeps |
| ExecutionModel.Harvest | GraphQL.ExecutionStrategy/PrioritisedParallelExecutionStrategy.cs:83-100 | awaiting a wave, classifying it and clearing both in-flight lists; ExecutionModel.HarvestInv states what it keeps |
| ExecutionModel.ProcessLoaders | GraphQL.ExecutionStrategy/PrioritisedParallelExecutionStrategy.cs:140-149 | draining a loader queue into the in-flight lists; ExecutionModel.ProcessLoadersInv and ExecutionModel.ProcessLoadersWork state what it keeps |
| ExecutionModel.LoaderStep | GraphQL.ExecutionStrategy/PrioritisedParallelExecutionStrategy.cs:144-147 | one turn of the drain loop; ExecutionModel.ProcessLoadersStep states that the drain is these turns in queue order |
| ExecutionModel.Flush | GraphQL.ExecutionStrategy/PrioritisedParallelExecutionStrategy.cs:103-123 | the flush of the deferred loaders; ExecutionModel.FlushInv, ExecutionModel.FlushPartition and ExecutionModel.FlushLeaves state its meaning |
| ExecutionModel.FlushQueue | GraphQL.ExecutionStrategy/PrioritisedParallelExecutionStrategy.cs:112-123 | the queue a flush drains; ExecutionModel.FlushQueueDrains states that it comes from the deferred list and is empty only when nothing is deferred |
| ExecutionModel.Completed | GraphQL.ExecutionStrategy/PrioritisedParallelExecutionStrategy.cs:146 | completing a data-loader node keeps its identity and declared part |
| ExecutionModel.LoaderTasks | GraphQL.ExecutionStrategy/PrioritisedParallelExecutionStrategy.cs:146 | one data-loader completion task per drained node, in queue order |
| ExecutionModel.CompletedAll | GraphQL.ExecutionStrategy/PrioritisedParallelExecutionStrategy.cs:147 | one in-flight node per drained node, in queue order |
| ExecutionModel.PendingLoaderGraphTypes | GraphQL.ExecutionStrategy/PrioritisedParallelExecutionStrategy.cs:103-105 | empty when nothing is deferred; in a well-formed schema it holds only object types, so the priority test only ever searches for object types |
| ExecutionModel.PriorityLoaders | GraphQL.ExecutionStrategy/PrioritisedParallelExecutionStrategy.cs:108-110 | when the test does not raise, the priority queue is the deferred list filtered by HasChildOfGraphType, in order; it does not raise when every deferred node's query fits the schema |
| ExecutionModel.InitialInv | GraphQL.ExecutionStrategy/PrioritisedParallelExecutionStrategy.cs:32-33 | a run starts with the root alone on the queue, in the invariant |
| ExecutionModel.CompleteWork | GraphQL.ExecutionStrategy/PrioritisedParallelExecutionStrategy.cs:59-66 | classifying a node accounts for every node of its subtree: deferred, enqueued or finished |
| ExecutionModel.CompleteShape | GraphQL.ExecutionStrategy/PrioritisedParallelExecutionStrategy.cs:89-96 | classification keeps FIFO order, parallel in-flight lists and a deferred list of data-loader results only |
| ExecutionModel.CompleteAllFacts | GraphQL.ExecutionStrategy/PrioritisedParallelExecutionStrategy.cs:87-97 | classifying a wave in order keeps the shape and the in-flight lists, and accounts for every node of the wave |
| ExecutionModel.StartInv | GraphQL.ExecutionStrategy/PrioritisedParallelExecutionStrategy.cs:49-73 | starting the head of the queue keeps the invariant, records it as the next started node with the in-flight load it started under, and lowers the cost |
| ExecutionModel.DispatchInv | GraphQL.ExecutionStrategy/PrioritisedParallelExecutionStrategy.cs:46-75 | the dispatch loop keeps the invariant, stops only when the bound is reached or the queue is empty, or on a cancellation seen before a start, and never takes the in-flight count above the bound |
| ExecutionModel.HarvestInv | GraphQL.ExecutionStrategy/PrioritisedParallelExecutionStrategy.cs:83-100 | awaiting a wave keeps the invariant and leaves both in-flight lists empty |
| ExecutionModel.WaveProgress | GraphQL.ExecutionStrategy/PrioritisedParallelExecutionStrategy.cs:43-101 | with a bound of at least one, each pass of the inner loop strictly lowers the cost |
| ExecutionModel.NonPositiveBoundStalls | GraphQL.ExecutionStrategy/PrioritisedParallelExecutionStrategy.cs:43-47 | with a bound of zero or less and nothing in flight, a pass of the inner loop changes nothing while its guard still holds |
| ExecutionModel.ProcessLoadersInv | GraphQL.ExecutionStrategy/PrioritisedParallelExecutionStrategy.cs:140-149 | draining a queue of deferred nodes keeps the invariant and lowers the cost by the queue's length |
| ExecutionModel.ProcessLoadersWork | GraphQL.ExecutionStrategy/PrioritisedParallelExecutionStrategy.cs:140-149 | each drained node moves from the deferred list to the in-flight list: no node is lost or added |
| ExecutionModel.LoaderTasksParallel | GraphQL.ExecutionStrategy/PrioritisedParallelExecutionStrategy.cs:146-147 | after a drain the task and node lists still have equal length and pair up by node |
| ExecutionModel.FlushInv | GraphQL.ExecutionStrategy/PrioritisedParallelExecutionStrategy.cs:103-123 | a flush that does not raise keeps the invariant; with nothing deferred it changes nothing, and otherwise it lowers the cost |
| ExecutionModel.FlushQueueDrains | GraphQL.ExecutionStrategy/PrioritisedParallelExecutionStrategy.cs:116-123 | the flushed queue is drawn from the deferred list and is empty only when nothing is deferred |
| ExecutionModel.FlushPartition | GraphQL.ExecutionStrategy/PrioritisedParallelExecutionStrategy.cs:108-114 | the priority and remaining queues are the deferred list filtered by the test and by its negation, in order, and together a permutation of it |
| ExecutionModel.FlushLeaves | GraphQL.ExecutionStrategy/PrioritisedParallelExecutionStrategy.cs:116-123 | when priority loaders exist only they are flushed and the deferred list becomes exactly the non-priority loaders in their order; otherwise every deferred loader is flushed, in deferred-list order |
| ExecutionModel.DeferredDistinct | GraphQL.ExecutionStrategy/PrioritisedParallelExecutionStrategy.cs:59-61 | in a tree of distinct nodes, no node is deferred twice |
| ExecutionModel.PassProgress | GraphQL.ExecutionStrategy/PrioritisedParallelExecutionStrategy.cs:41-124 | each pass of the outer loop keeps the invariant and strictly lowers the measure |
| ExecutionModel.Waves | GraphQL.ExecutionStrategy/PrioritisedParallelExecutionStrategy.cs:43-101 | the inner loop as repeated dispatch and harvest: it keeps the invariant and never raises the cost. It stops with nothing ready or in flight, or on a cancellation seen when a node may start |
| ExecutionModel.Pass | GraphQL.ExecutionStrategy/PrioritisedParallelExecutionStrategy.cs:43-123 | one outer pass, waves then the flush. On completion the measure drops; a cancellation is seen just before a start; a fault comes from the flush with nothing ready or in flight |
| ExecutionModel.Run | GraphQL.ExecutionStrategy/PrioritisedParallelExecutionStrategy.cs:39-125 | the outer loop as repeated passes: every run ends as ExecutionModel.Ended describes |
| ExecutionModel.RunEnded | GraphQL.ExecutionStrategy/PrioritisedParallelExecutionStrategy.cs:30-125 | the run from the root alone on the queue is defined, and it ends as ExecutionModel.Ended describes: on completion every node of the tree finished exactly once, in FIFO start order from the root |
| ExecutionModel.RunComplete | GraphQL.ExecutionStrategy/PrioritisedParallelExecutionStrategy.cs:41 | when the outer loop's guard fails, every enqueued node was started in FIFO order with the root first, and every node of the tree finished exactly once |
| ExecutionStrategy.Queue.Enqueue | GraphQL.ExecutionStrategy/PrioritisedParallelExecutionStrategy.cs:65 | Queue.Enqueue appends at the back |
| ExecutionStrategy.Queue.Dequeue | GraphQL.ExecutionStrategy/PrioritisedParallelExecutionStrategy.cs:50 | Queue.Dequeue returns and removes the front |
| ExecutionStrategy.Queue.Clear | GraphQL.ExecutionStrategy/PrioritisedParallelExecutionStrategy.cs:128 | Queue.Clear empties the queue |
| ExecutionStrategy.Queue.FromSeq | GraphQL.ExecutionStrategy/PrioritisedParallelExecutionStrategy.cs:108-114 | a queue built from a sequence holds it in order |
| ExecutionStrategy.List.Add | GraphQL.ExecutionStrategy/PrioritisedParallelExecutionStrategy.cs:71-72 | List.Add appends |
| ExecutionStrategy.List.Remove | GraphQL.ExecutionStrategy/PrioritisedParallelExecutionStrategy.cs:145 | List.Remove drops the first occurrence |
| ExecutionStrategy.List.Clear | GraphQL.ExecutionStrategy/PrioritisedParallelExecutionStrategy.cs:99-100 | List.Clear empties the list |
| ExecutionStrategy.CancellationToken.IsCancellationRequested | GraphQL.ExecutionStrategy/PrioritisedParallelExecutionStrategy.cs:49 | the token reports cancellation from the inspection at which it was requested onwards |
| ExecutionStrategy.PrioritisedParallelExecutionStrategy.constructor | GraphQL.ExecutionStrategy/PrioritisedParallelExecutionStrategy.cs:15-18 | a new strategy has four empty slots |
| ExecutionStrategy.PrioritisedParallelExecutionStrategy.ExecuteNodeTree | GraphQL.ExecutionStrategy/PrioritisedParallelExecutionStrategy.cs:30-138 | the outcome and the ghost run are exactly ExecutionModel.Run from the root alone on the queue. The whole run: buffers taken from the slots and returned to them cleared (an occupied slot keeps its object). On completion every enqueued node started in FIFO order from the root, every start was within the bound, every node finished once and all four collections are empty. A cancellation is seen just before a start; a fault comes from the priority test with nothing ready or in flight |
| ExecutionStrategy.PrioritisedParallelExecutionStrategy.TakeBuffers | GraphQL.ExecutionStrategy/PrioritisedParallelExecutionStrategy.cs:32-37 | each buffer is the slot's object, leaving the slot empty, or a fresh empty one |
| ExecutionStrategy.PrioritisedParallelExecutionStrategy.TakePendingNodes | GraphQL.ExecutionStrategy/PrioritisedParallelExecutionStrategy.cs:32 | take-or-allocate on the ready-queue slot, other slots untouched |
| ExecutionStrategy.PrioritisedParallelExecutionStrategy.TakePendingDataLoaders | GraphQL.ExecutionStrategy/PrioritisedParallelExecutionStrategy.cs:34 | take-or-allocate on the deferred-list slot, other slots untouched |
| ExecutionStrategy.PrioritisedParallelExecutionStrategy.TakeCurrentTasks | GraphQL.ExecutionStrategy/PrioritisedParallelExecutionStrategy.cs:36 | take-or-allocate on the task-list slot, other slots untouched |
| ExecutionStrategy.PrioritisedParallelExecutionStrategy.TakeCurrentNodes | GraphQL.ExecutionStrategy/PrioritisedParallelExecutionStrategy.cs:37 | take-or-allocate on the node-list slot, other slots untouched |
| ExecutionStrategy.PrioritisedParallelExecutionStrategy.Release | GraphQL.ExecutionStrategy/PrioritisedParallelExecutionStrategy.cs:126-137 | every buffer is cleared and returned to its slot only if that slot is empty |
| ExecutionStrategy.PrioritisedParallelExecutionStrategy.RunWaves | GraphQL.ExecutionStrategy/PrioritisedParallelExecutionStrategy.cs:39-125 | the outcome and final schedule are exactly ExecutionModel.Run from the root alone on the queue, and the buffers hold that schedule. So the outcome satisfies ExecutionModel.Ended |
| ExecutionStrategy.PrioritisedParallelExecutionStrategy.RunPass | GraphQL.ExecutionStrategy/PrioritisedParallelExecutionStrategy.cs:43-123 | the outcome and new schedule are exactly ExecutionModel.Pass of the old one (waves, then the flush). One outer pass keeps the invariant and lowers the measure, or ends in a cancellation or a fault |
| ExecutionStrategy.PrioritisedParallelExecutionStrategy.RunReadyNodes | GraphQL.ExecutionStrategy/PrioritisedParallelExecutionStrategy.cs:43-101 | the new schedule and the cancellation flag are exactly ExecutionModel.Waves of the old schedule. The inner loop leaves nothing ready or in flight unless it stops on a cancellation |
| ExecutionStrategy.PrioritisedParallelExecutionStrategy.FlushDataLoaders | GraphQL.ExecutionStrategy/PrioritisedParallelExecutionStrategy.cs:103-123 | performs exactly Flush: an error from the priority test changes nothing; otherwise the chosen queue is drained |
| ExecutionStrategy.PrioritisedParallelExecutionStrategy.DispatchReadyNodes | GraphQL.ExecutionStrategy/PrioritisedParallelExecutionStrategy.cs:46-75 | performs exactly DispatchReady on the buffers, inspecting the token once per start |
| ExecutionStrategy.PrioritisedParallelExecutionStrategy.Classify | GraphQL.ExecutionStrategy/PrioritisedParallelExecutionStrategy.cs:59-66 | performs exactly Complete: a data-loader result is deferred and its children not enqueued, a parent enqueues all its children in order, a value node adds nothing |
| ExecutionStrategy.PrioritisedParallelExecutionStrategy.AwaitWave | GraphQL.ExecutionStrategy/PrioritisedParallelExecutionStrategy.cs:83-100 | performs exactly Harvest: the wave's nodes are classified in order and both in-flight lists end empty |
| ExecutionStrategy.PrioritisedParallelExecutionStrategy.ProcessDataLoaders | GraphQL.ExecutionStrategy/PrioritisedParallelExecutionStrategy.cs:140-149 | drains the queue; each node leaves the deferred list and adds one task and one node to the in-flight lists (ProcessLoaders) |
| StarWars.FriendsOf | StarWars/StarWarsData.cs:61-62 | exactly the characters of the list the character names as friends, in list order, each as often as the list holds it |
| StarWars.FriendPairs | StarWars/StarWarsData.cs:72-75 | the (Id ?? "N/A", friend) pairs are exactly those of the selected characters and their friends |
| StarWars.FriendPairsAppend | StarWars/StarWarsData.cs:72-75 | the pairs follow the order of the selected characters |
| StarWars.FriendPairsOne | StarWars/StarWarsData.cs:73-75 | one character's group holds its friends in the order of all stored characters |
| StarWars.AddAll | StarWars/StarWarsData.cs:96-97 | ToDictionary succeeds exactly when the keys are new and distinct, and then maps each key to its element and nothing else |
| StarWars.ToDictionary | StarWars/StarWarsData.cs:96-97 | ToDictionary over Id ?? "" succeeds exactly when the keys are distinct, and maps each key to its element |
| StarWars.OwnerPairs | StarWars/StarWarsData.cs:98-102 | succeeds exactly when every id's droid and owner exist; pairs each requested droid that has an owner with that owner, and makes no other pair |
| StarWars.OwnerPairsAppend | StarWars/StarWarsData.cs:98-102 | the pairs follow the order of ids: those of an earlier run of ids come before those of a later run |
| StarWars.OwnerPairsOne | StarWars/StarWarsData.cs:99-101 | one resolvable id gives its droid with its owner, or no pair for a droid without owner |
| StarWars.StarWarsData.constructor | StarWars/StarWarsData.cs:14-49 | the store holds humans Luke ("1") and Vader ("2"), then droids R2-D2 ("3") and C-3PO ("4"), both owned by "1" |
| StarWars.StarWarsData.GetFriends | StarWars/StarWarsData.cs:51-66 | empty for a null character or null friends; otherwise exactly the stored characters the character lists, humans then droids, each in store order and as often as it is stored |
| StarWars.FriendsCount | StarWars/StarWarsData.cs:61-62 | the friends taken from the humans and from the droids hold every stored copy of each friend |
| StarWars.StarWarsData.GetFriendsForIds | StarWars/StarWarsData.cs:69-77 | each requested stored character's key holds its friends among all stored characters; a key exists only for a requested character with at least one stored friend |
| StarWars.StarWarsData.GetHumanById | StarWars/StarWarsData.cs:79-82 | the first stored human with the id, or null exactly when none has it |
| StarWars.StarWarsData.GetDroidById | StarWars/StarWarsData.cs:84-87 | the first stored droid with the id, or null exactly when none has it |
| StarWars.StarWarsData.GetDroidsByIds | StarWars/StarWarsData.cs:89-92 | exactly the stored droids whose id is requested, in store order, each as often as it is stored |
| StarWars.StarWarsData.GetDroidOwnersByIds | StarWars/StarWarsData.cs:94-103 | success requires every requested id to be a stored droid's, and is guaranteed when keys are distinct and every id and owner is stored. The lookup maps each requested droid that has an owner to its owner, and every key is a requested droid's id (RequestedDroid) |
| StarWars.StarWarsData.AddHuman | StarWars/StarWarsData.cs:105-110 | the human gets the fresh id and is appended; droids and existing humans are unchanged; a fresh id then finds it and every other id finds what it found before |
| StarWars.FriendsLookupSound | StarWars/StarWarsData.cs:69-77 | every value of the friends lookup is a stored friend of a requested character keyed by it |
| StarWars.FriendsLookupComplete | StarWars/StarWarsData.cs:69-77 | every stored friend of a requested character is under that character's key |
| StarWars.OwnersKnown | StarWars/StarWarsData.cs:98 | a successful owner lookup had every requested id among the droid keys |
| StarWars.OwnersSound | StarWars/StarWarsData.cs:98-102 | each owner under a key owns the droid with that id |
| StarWars.OwnersComplete | StarWars/StarWarsData.cs:98-102 | each requested droid with an owner is a key of the lookup |
| StarWars.OwnersResolve | StarWars/StarWarsData.cs:98-101 | when every requested droid and every owner is stored, no key lookup raises |
| StarWars.OwnersSucceed | StarWars/StarWarsData.cs:94-103 | on a store with distinct keys and stored owners, the query succeeds exactly when every id is a droid's key |
| StarWars.FirstOrDefaultAppend | StarWars/StarWarsData.cs:105-110 | appending an element changes a first-match lookup only when nothing matched before and the new element matches |
| StarWars.SeedHumans | StarWars/StarWarsData.cs:14-30 | on the seed, id "1" finds Luke, "2" finds Vader and "3" finds no human |
| StarWars.SeedDroidLookups | StarWars/StarWarsData.cs:32-48 | on the seed, id "3" finds R2-D2, "4" finds C-3PO and "1" finds no droid |
| StarWars.SeedFriendTests | StarWars/StarWarsData.cs:14-48 | Luke lists both droids as friends, R2-D2 lists Luke and C-3PO, and neither lists Vader |
| StarWars.SeedDroids | StarWars/StarWarsData.cs:89-92 | on the seed, ids 4, 3, 3 give R2-D2 then C-3PO, once each |
| StarWars.SeedOwners | StarWars/StarWarsData.cs:94-103 | on the seed, the owner query succeeds exactly when every requested id is "3" or "4" |

## Left out

- Real parallelism and `Task.WhenAll`. A node's task is either already completed when `ExecuteNodeAsync` returns or completes at the next wave, and a wave is one sequential step. Resolver thread safety is not modelled.
- `Interlocked.Exchange` / `CompareExchange` atomicity. Only the sequential slot semantics are kept: take or allocate, and hand back only into an empty slot.
- The GraphQL.NET library calls are left out:
  - `ExecuteNodeAsync` and `CompleteDataLoaderNodeAsync` become the node's script;
  - `ApplyToChildren` becomes the script's child list;
  - `CollectFieldsFrom`, `GetFieldDefinition` and `BuildExecutionNode` get simple concrete bodies (directives, field merging by alias, and the `__schema`/`__type` meta-fields are not modelled).
- The obsolete `OnBeforeExecutionStepAwaitedAsync` hook is not modelled.
- Resolver exceptions from `ExecuteNodeAsync` are not modelled; the only exceptions are cancellation and those of the priority test.
- Cancellation is a token whose source requests it after a given number of inspections. `ThrowIfCancellationRequested` is modelled as the inspection before each start; tasks already in flight are not awaited, as in the code.
- ExecutionStrategy.PrioritisedParallelExecutionStrategy.ExecuteNodeTree: requires `MaxParallelExecutionCount` to be null or at least 1. With zero or less the inner loop never starts a node and never ends; NonPositiveBoundStalls states this.
- ExecutionStrategy.PrioritisedParallelExecutionStrategy.ProcessDataLoaders: flushing loaders does not consult the bound, as in the code. So the bound is proved for every dispatch of a ready node, not for in-flight loader tasks.
- Classifier.GetGraphTypes: union types are not expanded (the code's switch has no union case). The model follows the code.
- Nodes are values with a unique id standing for object identity. The flush lemmas require the tree's ids to be distinct, as distinct objects are.
- StarWars.StarWarsData.AddHuman: the human is a value. In the source it is an object that `AddHuman` mutates and returns, so the caller's object also gets the id. That aliasing is not modelled. `Guid.NewGuid()` is a caller-supplied `freshId`.
- A character's `Friends` list is a list of strings with no null entries. So a character with a null id is never anyone's friend.
- The StarWarsCharacter, Human and Droid class files are not part of this model. The Character datatype carries the fields the store's queries read.
- StarWars.StarWarsData.GetFriendsForIds: the order of a key's values is not in the method's own contract. It is stated by FriendPairsAppend, FriendPairsOne and ValuesOfAppend together, with FriendsOf keeping the order of all stored characters.
- StarWars.StarWarsData.GetDroidOwnersByIds: the order of a key's owners is not in the method's own contract. It is stated by OwnerPairsAppend, OwnerPairsOne and ValuesOfAppend together. Which key raises first is fixed by the body of OwnerPairs and is not stated in any contract.
- The seed's answers to GetFriends and GetFriendsForIds are not proved for concrete inputs; the general contracts and SeedFriendTests cover them.
- `Task.FromResult` is the value itself. An `ILookup` is a map from key to its non-empty sequence of values, and a `Dictionary` is a map.
- HTTP middleware, settings, schema and resolver wiring, the document executor and the tests are outside the modelled core.
