/**
 * PrioritisedParallelExecutionStrategy: the run of ExecuteNodeTreeAsync over
 * mutable buffers, proved to perform the steps of module ExecutionModel.
 *
 * The four working collections are objects taken from (and handed back to)
 * the strategy's reusable slots. Each method below keeps a ghost Schedule
 * whose four working fields are exactly the buffers' contents, and states the
 * new Schedule as a step function of the old one.
 */
module ExecutionStrategy {
  import opened Wrappers
  import opened Linq
  import opened GraphTypes
  import opened ExecutionModel

  /** System.Collections.Generic.Queue: a FIFO buffer. */
  class Queue<T> {
    var items: seq<T>

    constructor ()
      ensures items == []
    {
      items := [];
    }

    /** new Queue<T>(collection): the collection's elements, in order. */
    constructor FromSeq(xs: seq<T>)
      ensures items == xs
    {
      items := xs;
    }

    method Enqueue(x: T)
      modifies this
      ensures items == old(items) + [x]
    {
      items := items + [x];
    }

    method Dequeue() returns (x: T)
      requires items != []
      modifies this
      ensures x == old(items)[0] && items == old(items)[1..]
    {
      x := items[0];
      items := items[1..];
    }

    method Clear()
      modifies this
      ensures items == []
    {
      items := [];
    }
  }

  /** System.Collections.Generic.List: a growable buffer. */
  class List<T(==)> {
    var items: seq<T>

    constructor ()
      ensures items == []
    {
      items := [];
    }

    method Add(x: T)
      modifies this
      ensures items == old(items) + [x]
    {
      items := items + [x];
    }

    /** List.Remove: drops the first occurrence of x, if any. */
    method Remove(x: T)
      modifies this
      ensures items == RemoveFirst(old(items), x)
    {
      items := RemoveFirst(items, x);
    }

    method Clear()
      modifies this
      ensures items == []
    {
      items := [];
    }
  }

  /**
   * The run's CancellationToken. The party holding its source requests
   * cancellation after the token has been inspected requestedAfter times
   * (never, when None): from then on every inspection reports it.
   */
  class CancellationToken {
    const requestedAfter: Option<nat>
    var inspections: nat

    constructor (requestedAfter: Option<nat>)
      ensures this.requestedAfter == requestedAfter && inspections == 0
    {
      this.requestedAfter := requestedAfter;
      inspections := 0;
    }

    /** ThrowIfCancellationRequested: true when it would throw. */
    method IsCancellationRequested() returns (cancelled: bool)
      modifies this
      ensures inspections == old(inspections) + 1
      ensures cancelled <==> requestedAfter.Some? && old(inspections) >= requestedAfter.value
    {
      cancelled := requestedAfter.Some? && inspections >= requestedAfter.value;
      inspections := inspections + 1;
    }
  }

  class PrioritisedParallelExecutionStrategy {
    var reusablePendingNodes: Queue?<ExecutionNode>
    var reusablePendingDataLoaders: List?<ExecutionNode>
    var reusableCurrentTasks: List?<Task>
    var reusableCurrentNodes: List?<ExecutionNode>

    /** Every parked buffer is empty, and the two parked node lists are different objects. */
    predicate Valid()
      reads this, reusablePendingNodes, reusablePendingDataLoaders, reusableCurrentTasks, reusableCurrentNodes
    {
      && (reusablePendingNodes != null ==> reusablePendingNodes.items == [])
      && (reusablePendingDataLoaders != null ==> reusablePendingDataLoaders.items == [])
      && (reusableCurrentTasks != null ==> reusableCurrentTasks.items == [])
      && (reusableCurrentNodes != null ==> reusableCurrentNodes.items == [])
      && (reusablePendingDataLoaders != null ==> reusablePendingDataLoaders != reusableCurrentNodes)
    }

    constructor ()
      ensures Valid()
      ensures reusablePendingNodes == null && reusablePendingDataLoaders == null
      ensures reusableCurrentTasks == null && reusableCurrentNodes == null
    {
      reusablePendingNodes := null;
      reusablePendingDataLoaders := null;
      reusableCurrentTasks := null;
      reusableCurrentNodes := null;
    }

    /**
     * ExecuteNodeTreeAsync. The buffers are taken from the slots (or
     * allocated), the root is enqueued and the waves run until nothing is
     * ready, in flight or deferred; on every way out the buffers are cleared
     * and handed back to their slots. The ghost run is the final schedule: it
     * keeps the invariant of module ExecutionModel (FIFO dispatch from the
     * root, every start within the bound, every node accounted for once) and,
     * when the run completes, every node of the tree has been completed.
     */
    method ExecuteNodeTree(schema: Schema, root: ExecutionNode, bound: Option<int>, token: CancellationToken)
      returns (outcome: RunOutcome, ghost run: Schedule)
      requires Valid()
      requires bound.None? || bound.value >= 1
      requires token.inspections == 0
      modifies this, reusablePendingNodes, reusablePendingDataLoaders, reusableCurrentTasks, reusableCurrentNodes, token
      ensures Valid()
      ensures reusablePendingNodes != null && reusablePendingDataLoaders != null
      ensures reusableCurrentTasks != null && reusableCurrentNodes != null
      ensures old(reusablePendingNodes) != null ==> reusablePendingNodes == old(reusablePendingNodes)
      ensures old(reusablePendingDataLoaders) != null ==> reusablePendingDataLoaders == old(reusablePendingDataLoaders)
      ensures old(reusableCurrentTasks) != null ==> reusableCurrentTasks == old(reusableCurrentTasks)
      ensures old(reusableCurrentNodes) != null ==> reusableCurrentNodes == old(reusableCurrentNodes)
      ensures Inv(root, bound, Initial(root))
      ensures (outcome, run) == Run(schema, root, bound, token.requestedAfter, Initial(root))
      ensures Ended(schema, root, bound, token.requestedAfter, outcome, run)
    {
      var pendingNodes, pendingDataLoaders, currentTasks, currentNodes := TakeBuffers();
      pendingNodes.Enqueue(root);
      outcome, run := RunWaves(schema, root, bound, token, pendingNodes, pendingDataLoaders, currentTasks, currentNodes);
      Release(pendingNodes, pendingDataLoaders, currentTasks, currentNodes);
    }

    /**
     * The buffers of a run: each is taken out of its slot, leaving the slot
     * empty, or allocated when the slot is empty.
     */
    method TakeBuffers()
      returns (pendingNodes: Queue<ExecutionNode>, pendingDataLoaders: List<ExecutionNode>,
               currentTasks: List<Task>, currentNodes: List<ExecutionNode>)
      requires Valid()
      modifies this
      ensures reusablePendingNodes == null && reusablePendingDataLoaders == null
      ensures reusableCurrentTasks == null && reusableCurrentNodes == null
      ensures pendingNodes.items == [] && pendingDataLoaders.items == [] && currentTasks.items == [] && currentNodes.items == []
      ensures pendingDataLoaders != currentNodes
      ensures if old(reusablePendingNodes) != null then pendingNodes == old(reusablePendingNodes) else fresh(pendingNodes)
      ensures if old(reusablePendingDataLoaders) != null then pendingDataLoaders == old(reusablePendingDataLoaders)
              else fresh(pendingDataLoaders)
      ensures if old(reusableCurrentTasks) != null then currentTasks == old(reusableCurrentTasks) else fresh(currentTasks)
      ensures if old(reusableCurrentNodes) != null then currentNodes == old(reusableCurrentNodes) else fresh(currentNodes)
    {
      pendingNodes := TakePendingNodes();
      pendingDataLoaders := TakePendingDataLoaders();
      currentTasks := TakeCurrentTasks();
      currentNodes := TakeCurrentNodes();
    }

    /** Interlocked.Exchange(ref _reusablePendingNodes, null) ?? new Queue<ExecutionNode>(). */
    method TakePendingNodes() returns (q: Queue<ExecutionNode>)
      requires Valid()
      modifies this
      ensures Valid() && reusablePendingNodes == null && q.items == []
      ensures reusablePendingDataLoaders == old(reusablePendingDataLoaders)
      ensures reusableCurrentTasks == old(reusableCurrentTasks) && reusableCurrentNodes == old(reusableCurrentNodes)
      ensures if old(reusablePendingNodes) != null then q == old(reusablePendingNodes) else fresh(q)
    {
      if reusablePendingNodes != null {
        q := reusablePendingNodes;
        reusablePendingNodes := null;
      } else {
        q := new Queue();
      }
    }

    /** Interlocked.Exchange(ref _reusablePendingDataLoaders, null) ?? new List<ExecutionNode>(). */
    method TakePendingDataLoaders() returns (l: List<ExecutionNode>)
      requires Valid()
      modifies this
      ensures Valid() && reusablePendingDataLoaders == null && l.items == []
      ensures reusablePendingNodes == old(reusablePendingNodes)
      ensures reusableCurrentTasks == old(reusableCurrentTasks) && reusableCurrentNodes == old(reusableCurrentNodes)
      ensures if old(reusablePendingDataLoaders) != null then l == old(reusablePendingDataLoaders) else fresh(l)
    {
      if reusablePendingDataLoaders != null {
        l := reusablePendingDataLoaders;
        reusablePendingDataLoaders := null;
      } else {
        l := new List();
      }
    }

    /** Interlocked.Exchange(ref _reusableCurrentTasks, null) ?? new List<Task>(). */
    method TakeCurrentTasks() returns (l: List<Task>)
      requires Valid()
      modifies this
      ensures Valid() && reusableCurrentTasks == null && l.items == []
      ensures reusablePendingNodes == old(reusablePendingNodes)
      ensures reusablePendingDataLoaders == old(reusablePendingDataLoaders) && reusableCurrentNodes == old(reusableCurrentNodes)
      ensures if old(reusableCurrentTasks) != null then l == old(reusableCurrentTasks) else fresh(l)
    {
      if reusableCurrentTasks != null {
        l := reusableCurrentTasks;
        reusableCurrentTasks := null;
      } else {
        l := new List();
      }
    }

    /** Interlocked.Exchange(ref _reusableCurrentNodes, null) ?? new List<ExecutionNode>(). */
    method TakeCurrentNodes() returns (l: List<ExecutionNode>)
      requires Valid()
      modifies this
      ensures Valid() && reusableCurrentNodes == null && l.items == []
      ensures reusablePendingNodes == old(reusablePendingNodes)
      ensures reusablePendingDataLoaders == old(reusablePendingDataLoaders) && reusableCurrentTasks == old(reusableCurrentTasks)
      ensures if old(reusableCurrentNodes) != null then l == old(reusableCurrentNodes) else fresh(l)
    {
      if reusableCurrentNodes != null {
        l := reusableCurrentNodes;
        reusableCurrentNodes := null;
      } else {
        l := new List();
      }
    }

    /**
     * The finally block: every buffer is cleared, and each is handed back to
     * its slot when the slot is empty (Interlocked.CompareExchange with null).
     */
    method Release(pendingNodes: Queue<ExecutionNode>, pendingDataLoaders: List<ExecutionNode>,
                   currentTasks: List<Task>, currentNodes: List<ExecutionNode>)
      requires Valid() && pendingDataLoaders != currentNodes
      requires reusablePendingDataLoaders == null || reusablePendingDataLoaders != currentNodes
      requires reusableCurrentNodes == null || reusableCurrentNodes != pendingDataLoaders
      modifies this, pendingNodes, pendingDataLoaders, currentTasks, currentNodes
      ensures Valid()
      ensures pendingNodes.items == [] && pendingDataLoaders.items == [] && currentTasks.items == [] && currentNodes.items == []
      ensures reusablePendingNodes == if old(reusablePendingNodes) == null then pendingNodes else old(reusablePendingNodes)
      ensures reusablePendingDataLoaders ==
                if old(reusablePendingDataLoaders) == null then pendingDataLoaders else old(reusablePendingDataLoaders)
      ensures reusableCurrentTasks == if old(reusableCurrentTasks) == null then currentTasks else old(reusableCurrentTasks)
      ensures reusableCurrentNodes == if old(reusableCurrentNodes) == null then currentNodes else old(reusableCurrentNodes)
    {
      pendingNodes.Clear();
      pendingDataLoaders.Clear();
      currentTasks.Clear();
      currentNodes.Clear();
      if reusablePendingNodes == null {
        reusablePendingNodes := pendingNodes;
      }
      if reusablePendingDataLoaders == null {
        reusablePendingDataLoaders := pendingDataLoaders;
      }
      if reusableCurrentTasks == null {
        reusableCurrentTasks := currentTasks;
      }
      if reusableCurrentNodes == null {
        reusableCurrentNodes := currentNodes;
      }
    }

    /**
     * The try block of ExecuteNodeTreeAsync: waves of dispatch and await
     * until nothing is ready or in flight, then a flush of the deferred data
     * loaders, until nothing is ready, in flight or deferred. An exception
     * (cancellation, or a failure of the priority test) ends it early.
     */
    method RunWaves(schema: Schema, root: ExecutionNode, bound: Option<int>, token: CancellationToken,
                    pendingNodes: Queue<ExecutionNode>, pendingDataLoaders: List<ExecutionNode>,
                    currentTasks: List<Task>, currentNodes: List<ExecutionNode>)
      returns (outcome: RunOutcome, ghost s: Schedule)
      requires bound.None? || bound.value >= 1
      requires token.inspections == 0 && pendingDataLoaders != currentNodes
      requires Mirrors(Initial(root), pendingNodes, pendingDataLoaders, currentTasks, currentNodes)
      modifies pendingNodes, pendingDataLoaders, currentTasks, currentNodes, token
      ensures Inv(root, bound, Initial(root))
      ensures (outcome, s) == Run(schema, root, bound, token.requestedAfter, Initial(root))
      ensures Mirrors(s, pendingNodes, pendingDataLoaders, currentTasks, currentNodes)
      ensures Ended(schema, root, bound, token.requestedAfter, outcome, s)
    {
      s := Initial(root);
      InitialInv(root, bound);
      outcome := RanToCompletion;
      while pendingNodes.items != [] || pendingDataLoaders.items != [] || currentTasks.items != []
        invariant Mirrors(s, pendingNodes, pendingDataLoaders, currentTasks, currentNodes)
        invariant Inv(root, bound, s) && token.inspections == |s.started|
        invariant Run(schema, root, bound, token.requestedAfter, s) == Run(schema, root, bound, token.requestedAfter, Initial(root))
        invariant outcome.RanToCompletion?
        decreases Measure(s)
      {
        outcome, s := RunPass(schema, root, bound, token, pendingNodes, pendingDataLoaders, currentTasks, currentNodes, s);
        if !outcome.RanToCompletion? {
          return;
        }
      }
      RunComplete(root, bound, s);
    }

    /**
     * One pass of the outer loop of ExecuteNodeTreeAsync: the inner loop of
     * waves, then the flush of the deferred data loaders.
     */
    method RunPass(schema: Schema, ghost root: ExecutionNode, bound: Option<int>, token: CancellationToken,
                   pendingNodes: Queue<ExecutionNode>, pendingDataLoaders: List<ExecutionNode>,
                   currentTasks: List<Task>, currentNodes: List<ExecutionNode>, ghost s: Schedule)
      returns (outcome: RunOutcome, ghost r: Schedule)
      requires bound.None? || bound.value >= 1
      requires pendingDataLoaders != currentNodes
      requires Mirrors(s, pendingNodes, pendingDataLoaders, currentTasks, currentNodes)
      requires Inv(root, bound, s) && token.inspections == |s.started|
      requires s.pending != [] || s.deferred != [] || s.tasks != []
      modifies pendingNodes, pendingDataLoaders, currentTasks, currentNodes, token
      ensures (outcome, r) == Pass(schema, root, bound, token.requestedAfter, s)
      ensures Mirrors(r, pendingNodes, pendingDataLoaders, currentTasks, currentNodes)
      ensures Inv(root, bound, r)
      ensures outcome.RanToCompletion? ==> token.inspections == |r.started| && Measure(r) < Measure(s)
      ensures outcome.Canceled? ==> MayStart(r, bound) && CancellationObserved(r, token.requestedAfter)
      ensures outcome.Faulted? ==> r.pending == [] && r.tasks == [] && Flush(schema, r) == Err(outcome.error)
    {
      var cancelled;
      cancelled, r := RunReadyNodes(root, bound, token, pendingNodes, pendingDataLoaders, currentTasks, currentNodes, s);
      if cancelled {
        return Canceled, r;
      }
      var error;
      ghost var waited := r;
      error, r := FlushDataLoaders(schema, pendingDataLoaders, currentTasks, currentNodes, r);
      if error.Some? {
        return Faulted(error.value), r;
      }
      PassProgress(schema, root, bound, s, waited);
      outcome := RanToCompletion;
    }

    /**
     * The inner loop of ExecuteNodeTreeAsync: dispatch, then await the wave,
     * until nothing is ready or in flight, or until a dispatch sees the
     * cancellation. Each pass costs at least one step.
     */
    method RunReadyNodes(ghost root: ExecutionNode, bound: Option<int>, token: CancellationToken,
                         pendingNodes: Queue<ExecutionNode>, pendingDataLoaders: List<ExecutionNode>,
                         currentTasks: List<Task>, currentNodes: List<ExecutionNode>, ghost s: Schedule)
      returns (cancelled: bool, ghost r: Schedule)
      requires bound.None? || bound.value >= 1
      requires pendingDataLoaders != currentNodes
      requires Mirrors(s, pendingNodes, pendingDataLoaders, currentTasks, currentNodes)
      requires Inv(root, bound, s) && token.inspections == |s.started|
      modifies pendingNodes, pendingDataLoaders, currentTasks, currentNodes, token
      ensures (r, cancelled) == Waves(root, bound, token.requestedAfter, s)
      ensures Mirrors(r, pendingNodes, pendingDataLoaders, currentTasks, currentNodes)
      ensures Inv(root, bound, r) && Cost(r) <= Cost(s)
      ensures cancelled ==> MayStart(r, bound) && CancellationObserved(r, token.requestedAfter)
      ensures !cancelled ==> r.pending == [] && r.tasks == [] && token.inspections == |r.started|
    {
      r := s;
      cancelled := false;
      while pendingNodes.items != [] || currentTasks.items != []
        invariant Mirrors(r, pendingNodes, pendingDataLoaders, currentTasks, currentNodes)
        invariant Inv(root, bound, r) && token.inspections == |r.started|
        invariant Waves(root, bound, token.requestedAfter, r) == Waves(root, bound, token.requestedAfter, s)
        invariant Cost(r) <= Cost(s)
        decreases Cost(r)
      {
        ghost var before := r;
        cancelled, r := DispatchReadyNodes(pendingNodes, pendingDataLoaders, currentTasks, currentNodes, bound, token, r);
        if cancelled {
          DispatchInv(root, bound, before, token.requestedAfter);
          return;
        }
        r := AwaitWave(pendingNodes, pendingDataLoaders, currentTasks, currentNodes, r);
        WaveProgress(root, bound, before, token.requestedAfter);
      }
    }

    /**
     * The flush at the end of each pass of ExecuteNodeTreeAsync's outer
     * loop: the object types every deferred node can expose are collected,
     * the deferred nodes that have a child exposing one of them become the
     * priority queue and the others the remaining queue; the priority queue
     * alone is flushed if it is not empty, and the remaining one otherwise.
     * An error raised by the priority test comes back before anything has
     * changed.
     */
    method FlushDataLoaders(schema: Schema, pendingDataLoaders: List<ExecutionNode>, currentTasks: List<Task>,
                            currentNodes: List<ExecutionNode>, ghost s: Schedule)
      returns (error: Option<Error>, ghost r: Schedule)
      requires pendingDataLoaders != currentNodes
      requires currentTasks.items == s.tasks && currentNodes.items == s.inFlight
      requires pendingDataLoaders.items == s.deferred
      modifies currentTasks, currentNodes, pendingDataLoaders
      ensures error.None? <==> Flush(schema, s).Ok?
      ensures error.Some? ==> Flush(schema, s) == Err(error.value) && r == s
      ensures error.None? ==> r == Flush(schema, s).value
      ensures currentTasks.items == r.tasks && currentNodes.items == r.inFlight
      ensures pendingDataLoaders.items == r.deferred
    {
      var pendingLoaderGraphTypes := PendingLoaderGraphTypes(schema, pendingDataLoaders.items);
      var priority := PriorityLoaders(schema, pendingDataLoaders.items, pendingLoaderGraphTypes);
      if priority.Err? {
        return Some(priority.error), s;
      }
      var priorityDataLoaders := new Queue.FromSeq(priority.value);
      var remainingDataLoaders := new Queue.FromSeq(Except(pendingDataLoaders.items, set x | x in priority.value));

      if |priorityDataLoaders.items| > 0 {
        r := ProcessDataLoaders(priorityDataLoaders, currentTasks, currentNodes, pendingDataLoaders, s);
        return None, r;
      }

      r := ProcessDataLoaders(remainingDataLoaders, currentTasks, currentNodes, pendingDataLoaders, s);
      error := None;
    }

    /**
     * The dispatch loop of ExecuteNodeTreeAsync: while the bound allows and
     * a node is ready, inspect the token, dequeue the node and run it; a node
     * that completes synchronously is classified at once, any other one joins
     * both in-flight lists.
     */
    method DispatchReadyNodes(pendingNodes: Queue<ExecutionNode>, pendingDataLoaders: List<ExecutionNode>,
                              currentTasks: List<Task>, currentNodes: List<ExecutionNode>,
                              bound: Option<int>, token: CancellationToken, ghost s: Schedule)
      returns (cancelled: bool, ghost r: Schedule)
      requires pendingDataLoaders != currentNodes
      requires Mirrors(s, pendingNodes, pendingDataLoaders, currentTasks, currentNodes)
      requires token.inspections == |s.started|
      modifies pendingNodes, pendingDataLoaders, currentTasks, currentNodes, token
      ensures (r, cancelled) == DispatchReady(s, bound, token.requestedAfter)
      ensures Mirrors(r, pendingNodes, pendingDataLoaders, currentTasks, currentNodes)
      ensures !cancelled ==> token.inspections == |r.started|
    {
      r := s;
      cancelled := false;
      while (bound.None? || |currentTasks.items| < bound.value) && pendingNodes.items != []
        invariant Mirrors(r, pendingNodes, pendingDataLoaders, currentTasks, currentNodes)
        invariant token.inspections == |r.started|
        invariant DispatchReady(r, bound, token.requestedAfter) == DispatchReady(s, bound, token.requestedAfter)
        decreases Cost(r)
      {
        cancelled := token.IsCancellationRequested();
        if cancelled {
          return;
        }
        StartCost(r);
        var pendingNode := pendingNodes.Dequeue();
        ghost var dequeued := Dequeue(r);
        if pendingNode.completesSynchronously {
          r := Classify(pendingNode, pendingNodes, pendingDataLoaders, dequeued);
        } else {
          currentTasks.Add(ExecuteNodeTask(pendingNode.id));
          currentNodes.Add(pendingNode);
          r := dequeued.(tasks := dequeued.tasks + [ExecuteNodeTask(pendingNode.id)],
                         inFlight := dequeued.inFlight + [pendingNode]);
        }
      }
    }

    /**
     * What happens to a node whose task has completed: a data-loader result
     * is deferred, a parent node enqueues all its children, and a value node
     * adds nothing.
     */
    method Classify(node: ExecutionNode, pendingNodes: Queue<ExecutionNode>, pendingDataLoaders: List<ExecutionNode>,
                    ghost s: Schedule)
      returns (ghost r: Schedule)
      requires pendingNodes.items == s.pending && pendingDataLoaders.items == s.deferred
      modifies pendingNodes, pendingDataLoaders
      ensures r == Complete(s, node)
      ensures pendingNodes.items == r.pending && pendingDataLoaders.items == r.deferred
    {
      if node.result.DataLoaderResult? {
        pendingDataLoaders.Add(node);
      } else if IsParentNode(node) {
        var children := ChildrenOf(node);
        for i := 0 to |children|
          invariant pendingNodes.items == s.pending + children[..i]
          invariant pendingDataLoaders.items == s.deferred
        {
          pendingNodes.Enqueue(children[i]);
        }
      }
      r := Complete(s, node);
    }

    /**
     * One wave: awaiting every in-flight task, classifying the in-flight
     * nodes in order, then clearing both in-flight lists.
     */
    method AwaitWave(pendingNodes: Queue<ExecutionNode>, pendingDataLoaders: List<ExecutionNode>,
                     currentTasks: List<Task>, currentNodes: List<ExecutionNode>, ghost s: Schedule)
      returns (ghost r: Schedule)
      requires pendingDataLoaders != currentNodes
      requires Mirrors(s, pendingNodes, pendingDataLoaders, currentTasks, currentNodes)
      modifies pendingNodes, pendingDataLoaders, currentTasks, currentNodes
      ensures r == Harvest(s)
      ensures Mirrors(r, pendingNodes, pendingDataLoaders, currentTasks, currentNodes)
    {
      r := s.(tasks := [], inFlight := []);
      for i := 0 to |currentNodes.items|
        invariant currentNodes.items == s.inFlight && currentTasks.items == s.tasks
        invariant pendingNodes.items == r.pending && pendingDataLoaders.items == r.deferred
        invariant r.tasks == [] && r.inFlight == []
        invariant CompleteAll(r, s.inFlight[i..]) == Harvest(s)
      {
        CompleteAllStep(r, s.inFlight, i);
        r := Classify(currentNodes.items[i], pendingNodes, pendingDataLoaders, r);
      }
      currentTasks.Clear();
      currentNodes.Clear();
    }

    /**
     * ProcessDataLoaders: drains the queue; each node leaves the deferred
     * list and joins the in-flight lists with the task completing its data
     * loader. The in-flight entry holds the node as that task leaves it.
     */
    method ProcessDataLoaders(dataLoaderQueue: Queue<ExecutionNode>, currentTasks: List<Task>,
                              currentNodes: List<ExecutionNode>, pendingDataLoaders: List<ExecutionNode>,
                              ghost s: Schedule)
      returns (ghost r: Schedule)
      requires pendingDataLoaders != currentNodes
      requires currentTasks.items == s.tasks && currentNodes.items == s.inFlight
      requires pendingDataLoaders.items == s.deferred
      modifies dataLoaderQueue, currentTasks, currentNodes, pendingDataLoaders
      ensures dataLoaderQueue.items == []
      ensures r == ProcessLoaders(s, old(dataLoaderQueue.items))
      ensures currentTasks.items == r.tasks && currentNodes.items == r.inFlight
      ensures pendingDataLoaders.items == r.deferred
    {
      r := s;
      ghost var rest := dataLoaderQueue.items;
      while dataLoaderQueue.items != []
        invariant dataLoaderQueue.items == rest
        invariant currentTasks.items == r.tasks && currentNodes.items == r.inFlight
        invariant pendingDataLoaders.items == r.deferred
        invariant ProcessLoaders(r, rest) == ProcessLoaders(s, old(dataLoaderQueue.items))
        decreases |rest|
      {
        ProcessLoadersStep(r, rest);
        r := LoaderStep(r, rest[0]);
        rest := rest[1..];
        var dataLoaderNode := dataLoaderQueue.Dequeue();
        pendingDataLoaders.Remove(dataLoaderNode);
        currentTasks.Add(CompleteDataLoaderTask(dataLoaderNode.id));
        currentNodes.Add(Completed(dataLoaderNode));
      }
      ProcessLoadersNone(r);
    }
  }

  /** The four buffers hold exactly the schedule's working collections. */
  predicate Mirrors(s: Schedule, pendingNodes: Queue<ExecutionNode>, pendingDataLoaders: List<ExecutionNode>,
                    currentTasks: List<Task>, currentNodes: List<ExecutionNode>)
    reads pendingNodes, pendingDataLoaders, currentTasks, currentNodes
  {
    && pendingNodes.items == s.pending && pendingDataLoaders.items == s.deferred
    && currentTasks.items == s.tasks && currentNodes.items == s.inFlight
  }
}
