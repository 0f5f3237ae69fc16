/**
 * The state machine behind PrioritisedParallelExecutionStrategy, on values.
 *
 * Real concurrency is abstracted away: every execution node carries a script
 * saying whether ExecuteNodeAsync returns an already-completed task and what
 * result the node then holds, and awaiting the in-flight tasks is one step in
 * which every one of them completes. The functions below are the steps of the
 * scheduler; the methods in module ExecutionStrategy are proved to perform
 * exactly these steps, and the lemmas here state what the steps keep.
 */
module ExecutionModel {
  import opened Wrappers
  import opened Linq
  import opened GraphTypes
  import Classifier

  /** What a node holds once the task that computes it has finished. */
  datatype NodeResult =
    | Value                                    // a leaf value, or null
    | Parent(children: seq<ExecutionNode>)     // an object or a list, with its child nodes
    | DataLoaderResult(completed: NodeResult)  // an IDataLoaderResult, and what completing it yields

  /**
   * An execution node: a unique id (the node's object identity), its
   * declared part, whether ExecuteNodeAsync completes synchronously, and its
   * result.
   */
  datatype ExecutionNode = ExecutionNode(id: nat, plan: PlanNode, completesSynchronously: bool, result: NodeResult)

  /** An element of currentTasks: the task running a node, or completing its data loader. */
  datatype Task = ExecuteNodeTask(nodeId: nat) | CompleteDataLoaderTask(nodeId: nat)

  /** Object and array nodes are IParentExecutionNode; value nodes are not. */
  predicate IsParentNode(n: ExecutionNode) {
    !n.plan.shape.ValueNode?
  }

  /** The child nodes ApplyToChildren visits once the node has its result. */
  function ChildrenOf(n: ExecutionNode): seq<ExecutionNode> {
    if IsParentNode(n) && n.result.Parent? then n.result.children else []
  }

  /** The node as it is once CompleteDataLoaderNodeAsync has run on it. */
  function Completed(n: ExecutionNode): (r: ExecutionNode)
    ensures r.id == n.id && r.plan == n.plan
  {
    if n.result.DataLoaderResult? then n.(result := n.result.completed) else n
  }

  // ---------------------------------------------------------------------
  // The ids of the nodes that are still to be completed, and the remaining
  // work: the measures the invariants and the termination proof use.
  // ---------------------------------------------------------------------

  /** The node's id and the ids of every node it will still bring into the run. */
  function Ids(n: ExecutionNode): seq<nat>
    decreases n, 1
  {
    [n.id] + ResultIds(n.plan, n.result)
  }

  function ResultIds(plan: PlanNode, r: NodeResult): seq<nat>
    decreases r, 0
  {
    match r
    case Value => []
    case Parent(cs) => if plan.shape.ValueNode? then [] else IdsOf(cs)
    case DataLoaderResult(c) => ResultIds(plan, c)
  }

  function IdsOf(ns: seq<ExecutionNode>): seq<nat>
    decreases ns, 2
  {
    if ns == [] then [] else Ids(ns[0]) + IdsOf(ns[1..])
  }

  /** The steps the node still needs: two per start and two per data-loader round. */
  function ResultCost(plan: PlanNode, r: NodeResult): nat
    decreases r, 0
  {
    match r
    case Value => 0
    case Parent(cs) => if plan.shape.ValueNode? then 0 else SumCost(cs, 2)
    case DataLoaderResult(c) => 2 + ResultCost(plan, c)
  }

  function SumCost(ns: seq<ExecutionNode>, perNode: nat): nat
    decreases ns, 1
  {
    if ns == [] then 0 else perNode + NodeCost(ns[0]) + SumCost(ns[1..], perNode)
  }

  function NodeCost(n: ExecutionNode): nat
    decreases n, 2
  {
    ResultCost(n.plan, n.result)
  }

  // ---------------------------------------------------------------------
  // The scheduler's state and its steps.
  // ---------------------------------------------------------------------

  /** The four working collections of one run and, for the proofs, its history. */
  datatype Schedule = Schedule(
    pending: seq<ExecutionNode>,   // pendingNodes, a FIFO queue
    deferred: seq<ExecutionNode>,  // pendingDataLoaders
    tasks: seq<Task>,              // currentTasks
    inFlight: seq<ExecutionNode>,  // currentNodes, each holding the result its task leaves it with
    started: seq<ExecutionNode>,   // the nodes handed to ExecuteNodeAsync, in order
    enqueued: seq<ExecutionNode>,  // the nodes put on pendingNodes, in order
    finished: seq<nat>,            // ids of the nodes completed with a result that is not a data loader
    loadAtStart: seq<nat>)         // the number of in-flight tasks when each node was started

  /** A run starts with the root node alone on the queue. */
  function Initial(root: ExecutionNode): Schedule {
    Schedule([root], [], [], [], [], [root], [], [])
  }

  /**
   * Classifying a node whose task has completed: a data-loader result is
   * deferred, and otherwise a parent node enqueues all its children.
   */
  function Complete(s: Schedule, n: ExecutionNode): Schedule {
    if n.result.DataLoaderResult? then s.(deferred := s.deferred + [n])
    else s.(pending := s.pending + ChildrenOf(n), enqueued := s.enqueued + ChildrenOf(n),
            finished := s.finished + [n.id])
  }

  /** The bound on parallel execution lets a node start with this many tasks in flight. */
  predicate BoundAllows(bound: Option<int>, load: nat) {
    bound.None? || load < bound.value
  }

  /** The guard of the dispatch loop. */
  predicate MayStart(s: Schedule, bound: Option<int>) {
    s.pending != [] && BoundAllows(bound, |s.tasks|)
  }

  /** The cancellation token, requested once that many nodes have started, is seen as cancelled. */
  predicate CancellationObserved(s: Schedule, cancelAfter: Option<nat>) {
    cancelAfter.Some? && |s.started| >= cancelAfter.value
  }

  /**
   * Dequeuing the next ready node and running it: a node that completes
   * synchronously is classified at once, any other one joins the in-flight
   * set.
   */
  function Start(s: Schedule): Schedule
    requires s.pending != []
  {
    var n := s.pending[0];
    var s1 := Dequeue(s);
    if n.completesSynchronously then Complete(s1, n)
    else s1.(tasks := s1.tasks + [ExecuteNodeTask(n.id)], inFlight := s1.inFlight + [n])
  }

  /**
   * The dispatch loop: start ready nodes while the bound allows, checking
   * for cancellation before each. The flag tells whether it stopped on a
   * cancellation.
   */
  function DispatchReady(s: Schedule, bound: Option<int>, cancelAfter: Option<nat>): (r: (Schedule, bool))
    decreases Cost(s)
  {
    if !MayStart(s, bound) then (s, false)
    else if CancellationObserved(s, cancelAfter) then (s, true)
    else
      StartCost(s);
      DispatchReady(Start(s), bound, cancelAfter)
  }

  function CompleteAll(s: Schedule, ns: seq<ExecutionNode>): Schedule
    decreases ns
  {
    if ns == [] then s else CompleteAll(Complete(s, ns[0]), ns[1..])
  }

  /**
   * Awaiting the in-flight tasks as one wave: every in-flight node is
   * classified, in order, and both in-flight lists are cleared.
   */
  function Harvest(s: Schedule): Schedule {
    CompleteAll(s.(tasks := [], inFlight := []), s.inFlight)
  }

  /**
   * ProcessDataLoaders: each queued loader node leaves the deferred list and
   * joins the in-flight set with a task completing its data loader.
   */
  function ProcessLoaders(s: Schedule, queue: seq<ExecutionNode>): Schedule {
    s.(deferred := RemoveEach(s.deferred, queue),
       tasks := s.tasks + LoaderTasks(queue),
       inFlight := s.inFlight + CompletedAll(queue))
  }

  function LoaderTasks(queue: seq<ExecutionNode>): (r: seq<Task>)
    ensures |r| == |queue|
    ensures forall i | 0 <= i < |queue| :: r[i] == CompleteDataLoaderTask(queue[i].id)
  {
    if queue == [] then [] else [CompleteDataLoaderTask(queue[0].id)] + LoaderTasks(queue[1..])
  }

  function CompletedAll(queue: seq<ExecutionNode>): (r: seq<ExecutionNode>)
    ensures |r| == |queue|
    ensures forall i | 0 <= i < |queue| :: r[i] == Completed(queue[i])
  {
    if queue == [] then [] else [Completed(queue[0])] + CompletedAll(queue[1..])
  }

  /** The names of every object type the deferred nodes can expose (pendingLoaderGraphTypes). */
  function PendingLoaderGraphTypes(schema: Schema, deferred: seq<ExecutionNode>): (r: set<string>)
    ensures deferred == [] ==> r == {}
    ensures WellFormed(schema) ==> forall t | t in r :: t in schema && schema[t].ObjectDef?
  {
    set x, t | x in deferred && t in Classifier.GetGraphTypes(schema, x.plan) :: t
  }

  /** A deferred node is a priority loader when some node below it would expose a searched type. */
  predicate IsPriority(schema: Schema, search: set<string>, x: ExecutionNode) {
    Classifier.Reaches(schema, x.plan, search)
  }

  /** The test priorityDataLoaders filters with. */
  function PriorityTest(schema: Schema, search: set<string>): ExecutionNode -> bool {
    x => IsPriority(schema, search, x)
  }

  /**
   * priorityDataLoaders: the deferred nodes that pass HasChildOfGraphType,
   * tested in order; the first error the test raises is raised.
   */
  function PriorityLoaders(schema: Schema, deferred: seq<ExecutionNode>, search: set<string>)
    : (r: Result<seq<ExecutionNode>, Error>)
    ensures r.Ok? ==> r.value == Where(deferred, PriorityTest(schema, search))
    ensures (forall x | x in deferred :: Classifier.Resolvable(schema, x.plan)) ==> r.Ok?
  {
    if deferred == [] then Ok([])
    else
      assert deferred[0] in deferred;
      match Classifier.HasChildOfGraphType(schema, deferred[0].plan, search)
      case Err(e) => Err(e)
      case Ok(b) =>
        match PriorityLoaders(schema, deferred[1..], search)
        case Err(e) => Err(e)
        case Ok(rest) => Ok(if b then [deferred[0]] + rest else rest)
  }

  /**
   * The flush of deferred nodes once nothing is ready or in flight: the
   * priority loaders alone if there are any, else all the remaining ones.
   */
  function Flush(schema: Schema, s: Schedule): Result<Schedule, Error> {
    var search := PendingLoaderGraphTypes(schema, s.deferred);
    match PriorityLoaders(schema, s.deferred, search)
    case Err(e) => Err(e)
    case Ok(priority) => Ok(ProcessLoaders(s, FlushQueue(s.deferred, priority)))
  }

  /** The queue a flush drains: the priority loaders if there are any, else the remaining ones. */
  function FlushQueue(deferred: seq<ExecutionNode>, priority: seq<ExecutionNode>): seq<ExecutionNode> {
    if |priority| > 0 then priority else Except(deferred, set x | x in priority)
  }

  /** How ExecuteNodeTreeAsync ends: normally, by OperationCanceledException, or by an exception of the priority test. */
  datatype RunOutcome = RanToCompletion | Canceled | Faulted(error: Error)

  // ---------------------------------------------------------------------
  // What every step keeps.
  // ---------------------------------------------------------------------

  /** The ids of the nodes still to be completed, wherever they wait. */
  function Work(s: Schedule): multiset<nat> {
    multiset(IdsOf(s.pending)) + multiset(IdsOf(s.inFlight)) + multiset(IdsOf(s.deferred))
  }

  /** The measure every iteration of the scheduler's loops decreases. */
  function Cost(s: Schedule): nat {
    SumCost(s.pending, 2) + SumCost(s.inFlight, 1) + SumCost(s.deferred, 0)
  }

  /** The measure the outer loop decreases: the cost, plus one while the loop's guard holds. */
  function Measure(s: Schedule): nat {
    Cost(s) + if s.pending != [] || s.deferred != [] || s.tasks != [] then 1 else 0
  }

  /**
   * The shape of a run from root: the in-flight lists are parallel, the
   * deferred list holds only data-loader results, the queue is FIFO (the
   * started nodes followed by the queue are exactly the enqueued ones, root
   * first), and every start happened within the bound.
   */
  predicate Shape(root: ExecutionNode, bound: Option<int>, s: Schedule) {
    && |s.tasks| == |s.inFlight|
    && (forall i | 0 <= i < |s.tasks| :: s.tasks[i].nodeId == s.inFlight[i].id)
    && (forall x | x in s.deferred :: x.result.DataLoaderResult?)
    && s.started + s.pending == s.enqueued
    && |s.enqueued| > 0 && s.enqueued[0] == root
    && |s.loadAtStart| == |s.started|
    && (forall i | 0 <= i < |s.loadAtStart| :: BoundAllows(bound, s.loadAtStart[i]))
  }

  /** The invariant of a run: its shape, and each node of the tree is finished or still waiting, exactly once. */
  predicate Inv(root: ExecutionNode, bound: Option<int>, s: Schedule) {
    Shape(root, bound, s) && multiset(s.finished) + Work(s) == multiset(Ids(root))
  }

  /** A run starts in the invariant. */
  lemma InitialInv(root: ExecutionNode, bound: Option<int>)
    ensures Inv(root, bound, Initial(root))
  {
    assert IdsOf([root]) == Ids(root) + IdsOf([]);
  }

  lemma {:induction false} SumCostAppend(a: seq<ExecutionNode>, b: seq<ExecutionNode>, perNode: nat)
    ensures SumCost(a + b, perNode) == SumCost(a, perNode) + SumCost(b, perNode)
  {
    if a == [] {
      assert a + b == b;
    } else {
      assert (a + b)[0] == a[0] && (a + b)[1..] == a[1..] + b;
      SumCostAppend(a[1..], b, perNode);
    }
  }

  lemma {:induction false} IdsOfAppend(a: seq<ExecutionNode>, b: seq<ExecutionNode>)
    ensures IdsOf(a + b) == IdsOf(a) + IdsOf(b)
  {
    if a == [] {
      assert a + b == b;
    } else {
      assert (a + b)[0] == a[0] && (a + b)[1..] == a[1..] + b;
      IdsOfAppend(a[1..], b);
    }
  }

  /** Classifying a completed node adds at most the node's own remaining cost. */
  lemma CompleteCost(s: Schedule, n: ExecutionNode)
    ensures Cost(Complete(s, n)) <= Cost(s) + NodeCost(n)
  {
    if n.result.DataLoaderResult? {
      SumCostAppend(s.deferred, [n], 0);
    } else {
      SumCostAppend(s.pending, ChildrenOf(n), 2);
    }
  }

  /** Classifying a completed node moves its ids from the waiting node to finished or to its children. */
  lemma CompleteWork(s: Schedule, n: ExecutionNode)
    ensures multiset(Complete(s, n).finished) + Work(Complete(s, n)) ==
            multiset(s.finished) + Work(s) + multiset(Ids(n))
  {
    var c := Complete(s, n);
    var fin, p, f, d := multiset(s.finished), multiset(IdsOf(s.pending)), multiset(IdsOf(s.inFlight)), multiset(IdsOf(s.deferred));
    if n.result.DataLoaderResult? {
      assert multiset(IdsOf(c.deferred)) == d + multiset(Ids(n)) by {
        IdsOfAppend(s.deferred, [n]);
        assert IdsOf([n]) == Ids(n);
      }
      assert c.finished == s.finished && c.pending == s.pending && c.inFlight == s.inFlight;
      MultisetAssoc(fin + p + f, d, multiset(Ids(n)));
    } else {
      var kids := multiset(ResultIds(n.plan, n.result));
      assert multiset(IdsOf(c.pending)) == p + kids by {
        IdsOfAppend(s.pending, ChildrenOf(n));
        assert IdsOf(ChildrenOf(n)) == ResultIds(n.plan, n.result);
      }
      assert multiset(c.finished) == fin + multiset{n.id};
      assert multiset(Ids(n)) == multiset{n.id} + kids;
      assert c.deferred == s.deferred && c.inFlight == s.inFlight;
      MultisetInterleave(fin, multiset{n.id}, p, kids, f + d);
    }
  }

  lemma StartCost(s: Schedule)
    requires s.pending != []
    ensures Cost(Start(s)) < Cost(s)
  {
    var n := s.pending[0];
    var s1 := Dequeue(s);
    if n.completesSynchronously {
      CompleteCost(s1, n);
    } else {
      SumCostAppend(s.inFlight, [n], 1);
    }
  }

  lemma {:induction false} SumCostPerNode(ns: seq<ExecutionNode>, perNode: nat)
    ensures SumCost(ns, perNode) == perNode * |ns| + SumCost(ns, 0)
  {
    if ns != [] {
      SumCostPerNode(ns[1..], perNode);
    }
  }

  lemma CompletedIds(x: ExecutionNode)
    ensures Ids(Completed(x)) == Ids(x)
  {
  }

  lemma {:induction false} CompletedAllIds(q: seq<ExecutionNode>)
    ensures IdsOf(CompletedAll(q)) == IdsOf(q)
  {
    if q != [] {
      CompletedAllIds(q[1..]);
      CompletedIds(q[0]);
      assert CompletedAll(q)[1..] == CompletedAll(q[1..]);
    }
  }

  /** Completing a data loader costs one step less than waiting for it. */
  lemma {:induction false} CompletedAllCost(q: seq<ExecutionNode>)
    requires forall x | x in q :: x.result.DataLoaderResult?
    ensures SumCost(CompletedAll(q), 1) + |q| == SumCost(q, 0)
  {
    if q != [] {
      assert q[0] in q;
      assert forall x | x in q[1..] :: x in q;
      CompletedAllCost(q[1..]);
      var c := CompletedAll(q);
      assert c[0] == Completed(q[0]) && c[1..] == CompletedAll(q[1..]);
      assert NodeCost(c[0]) + 2 == NodeCost(q[0]);
      assert SumCost(c, 1) == 1 + NodeCost(c[0]) + SumCost(c[1..], 1);
      assert SumCost(q, 0) == NodeCost(q[0]) + SumCost(q[1..], 0);
    }
  }

  lemma RemoveFirstWork(d: seq<ExecutionNode>, x: ExecutionNode)
    requires x in d
    ensures multiset(IdsOf(RemoveFirst(d, x))) + multiset(Ids(x)) == multiset(IdsOf(d))
    ensures SumCost(RemoveFirst(d, x), 0) + NodeCost(x) == SumCost(d, 0)
  {
    RemoveFirstIds(d, x);
    RemoveFirstCost(d, x);
  }

  lemma {:induction false} RemoveFirstIds(d: seq<ExecutionNode>, x: ExecutionNode)
    requires x in d
    ensures multiset(IdsOf(RemoveFirst(d, x))) + multiset(Ids(x)) == multiset(IdsOf(d))
  {
    if d[0] != x {
      RemoveFirstIds(d[1..], x);
      RemoveFirstHeadIds(d, x);
      MultisetShift(multiset(Ids(d[0])), multiset(IdsOf(RemoveFirst(d[1..], x))), multiset(Ids(x)), multiset(IdsOf(d[1..])));
    }
  }

  /** Removing a node other than the head keeps the head's ids in front. */
  lemma RemoveFirstHeadIds(d: seq<ExecutionNode>, x: ExecutionNode)
    requires d != [] && d[0] != x
    ensures multiset(IdsOf(RemoveFirst(d, x))) == multiset(Ids(d[0])) + multiset(IdsOf(RemoveFirst(d[1..], x)))
    ensures multiset(IdsOf(d)) == multiset(Ids(d[0])) + multiset(IdsOf(d[1..]))
  {
    assert RemoveFirst(d, x) == [d[0]] + RemoveFirst(d[1..], x);
    IdsOfCons(d[0], RemoveFirst(d[1..], x));
  }

  lemma IdsOfCons(n: ExecutionNode, rest: seq<ExecutionNode>)
    ensures multiset(IdsOf([n] + rest)) == multiset(Ids(n)) + multiset(IdsOf(rest))
  {
    assert ([n] + rest)[0] == n && ([n] + rest)[1..] == rest;
  }

  lemma {:induction false} RemoveFirstCost(d: seq<ExecutionNode>, x: ExecutionNode)
    requires x in d
    ensures SumCost(RemoveFirst(d, x), 0) + NodeCost(x) == SumCost(d, 0)
  {
    if d[0] != x {
      var r, r1 := RemoveFirst(d, x), RemoveFirst(d[1..], x);
      RemoveFirstCost(d[1..], x);
      assert r == [d[0]] + r1;
      assert r[0] == d[0] && r[1..] == r1;
    }
  }

  lemma {:induction false} RemoveEachIds(d: seq<ExecutionNode>, q: seq<ExecutionNode>)
    requires multiset(q) <= multiset(d)
    ensures multiset(IdsOf(RemoveEach(d, q))) + multiset(IdsOf(q)) == multiset(IdsOf(d))
    decreases q
  {
    if q != [] {
      var d1 := RemoveFirst(d, q[0]);
      RemoveEachStep(d, q);
      RemoveFirstWork(d, q[0]);
      RemoveEachIds(d1, q[1..]);
      assert IdsOf(q) == Ids(q[0]) + IdsOf(q[1..]);
      assert multiset(IdsOf(q)) == multiset(Ids(q[0])) + multiset(IdsOf(q[1..]));
    }
  }

  lemma {:induction false} RemoveEachCost(d: seq<ExecutionNode>, q: seq<ExecutionNode>)
    requires multiset(q) <= multiset(d)
    ensures SumCost(RemoveEach(d, q), 0) + SumCost(q, 0) == SumCost(d, 0)
    decreases q
  {
    if q != [] {
      var d1 := RemoveFirst(d, q[0]);
      RemoveEachStep(d, q);
      RemoveFirstWork(d, q[0]);
      RemoveEachCost(d1, q[1..]);
    }
  }

  lemma RemoveEachStep(d: seq<ExecutionNode>, q: seq<ExecutionNode>)
    requires q != [] && multiset(q) <= multiset(d)
    ensures q[0] in d
    ensures multiset(q[1..]) <= multiset(RemoveFirst(d, q[0]))
    ensures RemoveEach(d, q) == RemoveEach(RemoveFirst(d, q[0]), q[1..])
  {
    assert q == [q[0]] + q[1..];
    assert q[0] in multiset(d);
  }

  /** Whatever Complete does to the schedule keeps its shape. */
  lemma CompleteShape(root: ExecutionNode, bound: Option<int>, s: Schedule, n: ExecutionNode)
    requires Shape(root, bound, s)
    ensures Shape(root, bound, Complete(s, n))
  {
    if !n.result.DataLoaderResult? {
      var cs := ChildrenOf(n);
      assert s.started + (s.pending + cs) == (s.started + s.pending) + cs;
      assert (s.enqueued + cs)[0] == s.enqueued[0];
    }
  }

  /** Classifying a list of nodes in order, as after a wave. */
  lemma {:induction false} CompleteAllFacts(root: ExecutionNode, bound: Option<int>, s: Schedule, ns: seq<ExecutionNode>)
    requires Shape(root, bound, s)
    ensures Shape(root, bound, CompleteAll(s, ns))
    ensures CompleteAll(s, ns).tasks == s.tasks && CompleteAll(s, ns).inFlight == s.inFlight
    ensures CompleteAll(s, ns).started == s.started && CompleteAll(s, ns).loadAtStart == s.loadAtStart
    ensures multiset(CompleteAll(s, ns).finished) + Work(CompleteAll(s, ns)) ==
            multiset(s.finished) + Work(s) + multiset(IdsOf(ns))
    ensures Cost(CompleteAll(s, ns)) <= Cost(s) + SumCost(ns, 0)
    decreases ns
  {
    if ns != [] {
      var s1 := Complete(s, ns[0]);
      CompleteShape(root, bound, s, ns[0]);
      CompleteWork(s, ns[0]);
      CompleteCost(s, ns[0]);
      CompleteAllFacts(root, bound, s1, ns[1..]);
    }
  }

  /** A wave keeps the invariant, leaves both in-flight lists empty and pays for every in-flight node. */
  lemma HarvestInv(root: ExecutionNode, bound: Option<int>, s: Schedule)
    requires Inv(root, bound, s)
    ensures Inv(root, bound, Harvest(s))
    ensures Harvest(s).tasks == [] && Harvest(s).inFlight == []
    ensures Harvest(s).started == s.started
    ensures Cost(Harvest(s)) + |s.inFlight| <= Cost(s)
  {
    var t := s.(tasks := [], inFlight := []);
    assert Shape(root, bound, t);
    assert Work(t) + multiset(IdsOf(s.inFlight)) == Work(s);
    assert Cost(t) + SumCost(s.inFlight, 1) == Cost(s);
    CompleteAllFacts(root, bound, t, s.inFlight);
    SumCostPerNode(s.inFlight, 1);
  }

  /** Dequeuing the next ready node, before it is run. */
  function Dequeue(s: Schedule): Schedule
    requires s.pending != []
  {
    s.(pending := s.pending[1..], started := s.started + [s.pending[0]], loadAtStart := s.loadAtStart + [|s.tasks|])
  }

  lemma DequeueInv(root: ExecutionNode, bound: Option<int>, s: Schedule)
    requires Inv(root, bound, s) && MayStart(s, bound)
    ensures Shape(root, bound, Dequeue(s))
    ensures multiset(s.finished) + Work(Dequeue(s)) + multiset(Ids(s.pending[0])) == multiset(Ids(root))
  {
    var s1 := Dequeue(s);
    assert Shape(root, bound, s1) by {
      assert s.pending == [s.pending[0]] + s.pending[1..];
      assert s1.started + s1.pending == s.started + s.pending;
    }
    assert Work(s1) + multiset(Ids(s.pending[0])) == Work(s) by {
      DequeueWork(s);
    }
    MultisetShift(multiset(s.finished), Work(s1), multiset(Ids(s.pending[0])), Work(s));
  }

  lemma DequeueWork(s: Schedule)
    requires s.pending != []
    ensures Work(Dequeue(s)) + multiset(Ids(s.pending[0])) == Work(s)
  {
    var p := s.pending;
    var i, rest, f, d := multiset(Ids(p[0])), multiset(IdsOf(p[1..])), multiset(IdsOf(s.inFlight)), multiset(IdsOf(s.deferred));
    assert multiset(IdsOf(p)) == i + rest by {
      assert IdsOf(p) == Ids(p[0]) + IdsOf(p[1..]);
    }
    MultisetFront(i, rest, f + d);
  }

  /** Starting the next ready node keeps the invariant and costs at least one step. */
  lemma StartInv(root: ExecutionNode, bound: Option<int>, s: Schedule)
    requires Inv(root, bound, s) && MayStart(s, bound)
    ensures Inv(root, bound, Start(s))
    ensures Cost(Start(s)) < Cost(s)
    ensures Start(s).started == s.started + [s.pending[0]]
    ensures Start(s).loadAtStart == s.loadAtStart + [|s.tasks|]
  {
    var n := s.pending[0];
    var s1, t := Dequeue(s), Start(s);
    assert Cost(t) < Cost(s) by {
      StartCost(s);
    }
    assert Shape(root, bound, s1) && multiset(s.finished) + Work(s1) + multiset(Ids(n)) == multiset(Ids(root)) by {
      DequeueInv(root, bound, s);
    }
    assert Shape(root, bound, t) && multiset(t.finished) + Work(t) == multiset(s.finished) + Work(s1) + multiset(Ids(n)) by {
      if n.completesSynchronously {
        CompleteShape(root, bound, s1, n);
        CompleteWork(s1, n);
      } else {
        RunAsyncInv(root, bound, s1, n);
        MultisetAssoc(multiset(s.finished), Work(s1), multiset(Ids(n)));
      }
    }
  }

  /** A node that does not complete synchronously joins both in-flight lists. */
  lemma RunAsyncInv(root: ExecutionNode, bound: Option<int>, s: Schedule, n: ExecutionNode)
    requires Shape(root, bound, s)
    ensures Shape(root, bound, s.(tasks := s.tasks + [ExecuteNodeTask(n.id)], inFlight := s.inFlight + [n]))
    ensures Work(s.(tasks := s.tasks + [ExecuteNodeTask(n.id)], inFlight := s.inFlight + [n])) == Work(s) + multiset(Ids(n))
  {
    IdsOfAppend(s.inFlight, [n]);
    assert IdsOf([n]) == Ids(n);
  }

  /**
   * The dispatch loop keeps the invariant and never pays: it either changes
   * nothing or strictly lowers the cost. It stops on the loop's own guard or
   * on a cancellation seen while a node was ready, and it never leaves more
   * tasks in flight than the bound allows once it has started one.
   */
  lemma {:induction false} DispatchInv(root: ExecutionNode, bound: Option<int>, s: Schedule, cancelAfter: Option<nat>)
    requires Inv(root, bound, s)
    ensures Inv(root, bound, DispatchReady(s, bound, cancelAfter).0)
    ensures DispatchReady(s, bound, cancelAfter).0 == s || Cost(DispatchReady(s, bound, cancelAfter).0) < Cost(s)
    ensures !DispatchReady(s, bound, cancelAfter).1 ==> !MayStart(DispatchReady(s, bound, cancelAfter).0, bound)
    ensures DispatchReady(s, bound, cancelAfter).1 ==>
              MayStart(DispatchReady(s, bound, cancelAfter).0, bound) &&
              CancellationObserved(DispatchReady(s, bound, cancelAfter).0, cancelAfter)
    ensures bound.Some? && |s.tasks| <= bound.value ==> |DispatchReady(s, bound, cancelAfter).0.tasks| <= bound.value
    decreases Cost(s)
  {
    if MayStart(s, bound) && !CancellationObserved(s, cancelAfter) {
      var t := Start(s);
      assert DispatchReady(s, bound, cancelAfter) == DispatchReady(t, bound, cancelAfter);
      assert Inv(root, bound, t) && Cost(t) < Cost(s) && |t.tasks| <= |s.tasks| + 1 by {
        StartInv(root, bound, s);
      }
      DispatchInv(root, bound, t, cancelAfter);
    }
  }

  /**
   * One pass of the inner loop that was not cancelled: dispatching, then
   * awaiting the wave, keeps the invariant and costs at least one step, so
   * the inner loop ends.
   */
  lemma WaveProgress(root: ExecutionNode, bound: Option<int>, s: Schedule, cancelAfter: Option<nat>)
    requires Inv(root, bound, s) && (bound.None? || bound.value >= 1)
    requires s.pending != [] || s.tasks != []
    requires !DispatchReady(s, bound, cancelAfter).1
    ensures Inv(root, bound, Harvest(DispatchReady(s, bound, cancelAfter).0))
    ensures Cost(Harvest(DispatchReady(s, bound, cancelAfter).0)) < Cost(s)
    ensures Harvest(DispatchReady(s, bound, cancelAfter).0).started == DispatchReady(s, bound, cancelAfter).0.started
  {
    var d := DispatchReady(s, bound, cancelAfter).0;
    assert Inv(root, bound, d) && (d == s || Cost(d) < Cost(s)) && !MayStart(d, bound) by {
      DispatchInv(root, bound, s, cancelAfter);
    }
    assert Inv(root, bound, Harvest(d)) && Cost(Harvest(d)) + |d.inFlight| <= Cost(d)
           && Harvest(d).started == d.started by {
      HarvestInv(root, bound, d);
    }
    if d.tasks == [] {
      assert BoundAllows(bound, |d.tasks|);
      assert d != s;
    } else {
      assert |d.inFlight| == |d.tasks| > 0;
    }
  }

  /** Flushing a queue of deferred nodes keeps the invariant and costs exactly one step per node. */
  lemma ProcessLoadersInv(root: ExecutionNode, bound: Option<int>, s: Schedule, queue: seq<ExecutionNode>)
    requires Inv(root, bound, s)
    requires multiset(queue) <= multiset(s.deferred)
    ensures Inv(root, bound, ProcessLoaders(s, queue))
    ensures Cost(ProcessLoaders(s, queue)) + |queue| == Cost(s)
  {
    ProcessLoadersShape(root, bound, s, queue);
    ProcessLoadersWork(s, queue);
    ProcessLoadersCost(s, queue);
  }

  lemma ProcessLoadersShape(root: ExecutionNode, bound: Option<int>, s: Schedule, queue: seq<ExecutionNode>)
    requires Shape(root, bound, s)
    requires multiset(queue) <= multiset(s.deferred)
    ensures Shape(root, bound, ProcessLoaders(s, queue))
  {
    var r := ProcessLoaders(s, queue);
    assert forall x | x in r.deferred :: x in multiset(s.deferred);
    LoaderTasksParallel(s.tasks, s.inFlight, queue);
  }

  /** The task and node lists stay parallel when a queue's loader tasks and nodes are appended. */
  lemma LoaderTasksParallel(tasks: seq<Task>, inFlight: seq<ExecutionNode>, queue: seq<ExecutionNode>)
    requires |tasks| == |inFlight| && forall i | 0 <= i < |tasks| :: tasks[i].nodeId == inFlight[i].id
    ensures var t, f := tasks + LoaderTasks(queue), inFlight + CompletedAll(queue);
            |t| == |f| && forall i | 0 <= i < |t| :: t[i].nodeId == f[i].id
  {
    var t, f := tasks + LoaderTasks(queue), inFlight + CompletedAll(queue);
    forall i | 0 <= i < |t|
      ensures t[i].nodeId == f[i].id
    {
      if i >= |tasks| {
        assert t[i] == LoaderTasks(queue)[i - |tasks|];
        assert f[i] == CompletedAll(queue)[i - |tasks|];
      }
    }
  }

  lemma ProcessLoadersWork(s: Schedule, queue: seq<ExecutionNode>)
    requires multiset(queue) <= multiset(s.deferred)
    ensures Work(ProcessLoaders(s, queue)) == Work(s)
  {
    var r := ProcessLoaders(s, queue);
    RemoveEachIds(s.deferred, queue);
    CompletedAllIds(queue);
    IdsOfAppend(s.inFlight, CompletedAll(queue));
    assert multiset(IdsOf(r.inFlight)) == multiset(IdsOf(s.inFlight)) + multiset(IdsOf(queue));
  }

  lemma ProcessLoadersCost(s: Schedule, queue: seq<ExecutionNode>)
    requires multiset(queue) <= multiset(s.deferred)
    requires forall x | x in s.deferred :: x.result.DataLoaderResult?
    ensures Cost(ProcessLoaders(s, queue)) + |queue| == Cost(s)
  {
    assert forall x | x in queue :: x in multiset(s.deferred);
    RemoveEachCost(s.deferred, queue);
    CompletedAllCost(queue);
    SumCostAppend(s.inFlight, CompletedAll(queue), 1);
  }

  /**
   * The flush keeps the invariant; it leaves a schedule with nothing
   * deferred as it was, and otherwise flushes at least one node.
   */
  lemma FlushInv(schema: Schema, root: ExecutionNode, bound: Option<int>, s: Schedule)
    requires Inv(root, bound, s)
    requires s.pending == [] && s.tasks == []
    ensures Flush(schema, s).Ok? ==> Inv(root, bound, Flush(schema, s).value)
    ensures Flush(schema, s).Ok? && s.deferred == [] ==> Flush(schema, s).value == s
    ensures Flush(schema, s).Ok? && s.deferred != [] ==> Cost(Flush(schema, s).value) < Cost(s)
  {
    var pr := PriorityLoaders(schema, s.deferred, PendingLoaderGraphTypes(schema, s.deferred));
    if pr.Ok? {
      var queue := FlushQueue(s.deferred, pr.value);
      FlushQueueDrains(s.deferred, pr.value);
      ProcessLoadersInv(root, bound, s, queue);
    }
  }

  /**
   * A pass of the outer loop that neither was cancelled nor faulted: the
   * inner loop left w with nothing ready or in flight, at no more cost than
   * the pass started with, and the flush that follows keeps the invariant
   * and lowers the outer loop's measure, so the outer loop ends.
   */
  lemma PassProgress(schema: Schema, root: ExecutionNode, bound: Option<int>, s: Schedule, w: Schedule)
    requires s.pending != [] || s.deferred != [] || s.tasks != []
    requires Inv(root, bound, w) && w.pending == [] && w.tasks == [] && Cost(w) <= Cost(s)
    requires Flush(schema, w).Ok?
    ensures Inv(root, bound, Flush(schema, w).value)
    ensures Measure(Flush(schema, w).value) < Measure(s)
  {
    FlushInv(schema, root, bound, w);
  }

  /** The flushed queue is drawn from the deferred list, and is empty only when that list is. */
  lemma FlushQueueDrains(deferred: seq<ExecutionNode>, priority: seq<ExecutionNode>)
    requires multiset(priority) <= multiset(deferred)
    ensures multiset(FlushQueue(deferred, priority)) <= multiset(deferred)
    ensures FlushQueue(deferred, priority) == [] <==> deferred == []
  {
    if |priority| == 0 {
      ExceptSubMultiset(deferred, set x | x in priority);
      if deferred != [] {
        assert deferred[0] in FlushQueue(deferred, priority);
      }
    } else {
      assert priority[0] in multiset(deferred);
    }
  }

  /** A run whose queue, deferred list and task list are all empty has completed every node of the tree exactly once. */
  lemma RunComplete(root: ExecutionNode, bound: Option<int>, s: Schedule)
    requires Inv(root, bound, s)
    requires s.pending == [] && s.deferred == [] && s.tasks == []
    ensures s.inFlight == []
    ensures s.started == s.enqueued && s.started[0] == root
    ensures multiset(s.finished) == multiset(Ids(root))
  {
  }

  lemma {:induction false} DistinctCounts(xs: seq<nat>)
    requires Distinct(xs)
    ensures forall v | v in multiset(xs) :: multiset(xs)[v] == 1
  {
    if xs != [] {
      DistinctCounts(xs[1..]);
      assert xs == [xs[0]] + xs[1..];
      assert xs[0] !in xs[1..];
    }
  }

  lemma {:induction false} IdInIdsOf(ns: seq<ExecutionNode>, x: ExecutionNode)
    requires x in ns
    ensures x.id in IdsOf(ns)
  {
    if ns[0] != x {
      IdInIdsOf(ns[1..], x);
    }
  }

  /** Nodes whose ids occur once each are pairwise distinct. */
  lemma {:induction false} IdsOfDistinct(ns: seq<ExecutionNode>)
    requires forall v | v in multiset(IdsOf(ns)) :: multiset(IdsOf(ns))[v] == 1
    ensures Distinct(ns)
  {
    if ns != [] {
      var m0, m1 := multiset(Ids(ns[0])), multiset(IdsOf(ns[1..]));
      assert multiset(IdsOf(ns)) == m0 + m1;
      forall v | v in m1
        ensures m1[v] == 1
      {
        assert multiset(IdsOf(ns))[v] == m0[v] + m1[v];
      }
      IdsOfDistinct(ns[1..]);
      var id := ns[0].id;
      assert id in m0;
      forall x | x in ns[1..]
        ensures x.id in m1
      {
        IdInIdsOf(ns[1..], x);
      }
      assert multiset(IdsOf(ns))[id] == m0[id] + m1[id];
    }
  }

  /** In a run over a tree whose nodes are distinct, no node is deferred twice. */
  lemma DeferredDistinct(root: ExecutionNode, bound: Option<int>, s: Schedule)
    requires Inv(root, bound, s) && Distinct(Ids(root))
    ensures Distinct(s.deferred)
  {
    var m := multiset(Ids(root));
    var d := multiset(IdsOf(s.deferred));
    DistinctCounts(Ids(root));
    assert d <= m;
    forall v | v in d
      ensures d[v] == 1
    {
      assert d[v] <= m[v];
    }
    IdsOfDistinct(s.deferred);
  }

  /**
   * The priority and the remaining loaders split the deferred list in two,
   * each keeping its order: the remaining ones are exactly those that are
   * not priority loaders.
   */
  lemma FlushPartition(schema: Schema, root: ExecutionNode, bound: Option<int>, s: Schedule)
    requires Inv(root, bound, s) && Distinct(Ids(root))
    requires PriorityLoaders(schema, s.deferred, PendingLoaderGraphTypes(schema, s.deferred)).Ok?
    ensures var test := PriorityTest(schema, PendingLoaderGraphTypes(schema, s.deferred));
            var priority := PriorityLoaders(schema, s.deferred, PendingLoaderGraphTypes(schema, s.deferred)).value;
            && priority == Where(s.deferred, test)
            && Except(s.deferred, set x | x in priority) == WhereNot(s.deferred, test)
            && multiset(priority) + multiset(Except(s.deferred, set x | x in priority)) == multiset(s.deferred)
  {
    DeferredDistinct(root, bound, s);
    ExceptOfWhere(s.deferred, PriorityTest(schema, PendingLoaderGraphTypes(schema, s.deferred)));
  }

  /**
   * What a flush leaves deferred: the non-priority loaders, in their order,
   * when some loader has priority, and nothing at all when none has (every deferred node is
   * then flushed, in deferred-list order).
   */
  lemma FlushLeaves(schema: Schema, root: ExecutionNode, bound: Option<int>, s: Schedule)
    requires Inv(root, bound, s) && Distinct(Ids(root))
    requires PriorityLoaders(schema, s.deferred, PendingLoaderGraphTypes(schema, s.deferred)).Ok?
    ensures var test := PriorityTest(schema, PendingLoaderGraphTypes(schema, s.deferred));
            var priority := PriorityLoaders(schema, s.deferred, PendingLoaderGraphTypes(schema, s.deferred)).value;
            var r := Flush(schema, s).value;
            && (priority != [] ==> r.deferred == WhereNot(s.deferred, test))
            && (priority == [] ==> FlushQueue(s.deferred, priority) == s.deferred && r.deferred == [])
  {
    var search := PendingLoaderGraphTypes(schema, s.deferred);
    var test := PriorityTest(schema, search);
    var priority := PriorityLoaders(schema, s.deferred, search).value;
    assert Flush(schema, s).value.deferred == RemoveEach(s.deferred, FlushQueue(s.deferred, priority));
    DeferredDistinct(root, bound, s);
    if priority != [] {
      assert RemoveEach(s.deferred, priority) == WhereNot(s.deferred, test) by {
        assert priority == Where(s.deferred, test);
        RemoveEachWhere(s.deferred, test);
      }
    } else {
      assert FlushQueue(s.deferred, priority) == s.deferred by {
        ExceptNone(s.deferred, set x | x in priority);
      }
      var left := RemoveEach(s.deferred, s.deferred);
      assert |left| == |multiset(left)| == 0;
    }
  }

  /** One turn of ProcessDataLoaders' loop on the queued node x. */
  function LoaderStep(s: Schedule, x: ExecutionNode): Schedule {
    s.(deferred := RemoveFirst(s.deferred, x),
       tasks := s.tasks + [CompleteDataLoaderTask(x.id)],
       inFlight := s.inFlight + [Completed(x)])
  }

  /**
   * Why a run needs a bound of at least one: with a bound of zero or less
   * and nothing in flight, the dispatch loop starts nothing and the wave
   * awaits nothing, so a pass of the inner loop leaves the schedule as it
   * was while the inner loop's guard still holds.
   */
  lemma NonPositiveBoundStalls(s: Schedule, bound: Option<int>, cancelAfter: Option<nat>)
    requires bound.Some? && bound.value <= 0
    requires s.pending != [] && s.tasks == [] && s.inFlight == []
    ensures DispatchReady(s, bound, cancelAfter) == (s, false)
    ensures Harvest(DispatchReady(s, bound, cancelAfter).0) == s
  {
  }

  /** Flushing an empty queue changes nothing. */
  lemma ProcessLoadersNone(s: Schedule)
    ensures ProcessLoaders(s, []) == s
  {
    assert LoaderTasks([]) == [] && CompletedAll([]) == [];
    assert s.tasks + [] == s.tasks && s.inFlight + [] == s.inFlight;
  }

  /** Flushing a queue is flushing its first node, then the rest of the queue. */
  lemma ProcessLoadersStep(s: Schedule, queue: seq<ExecutionNode>)
    requires queue != []
    ensures ProcessLoaders(s, queue) == ProcessLoaders(LoaderStep(s, queue[0]), queue[1..])
  {
    var x, rest := queue[0], queue[1..];
    assert LoaderTasks(queue) == [CompleteDataLoaderTask(x.id)] + LoaderTasks(rest);
    AppendCons(s.tasks, CompleteDataLoaderTask(x.id), LoaderTasks(rest));
    assert CompletedAll(queue) == [Completed(x)] + CompletedAll(rest);
    AppendCons(s.inFlight, Completed(x), CompletedAll(rest));
  }

  lemma AppendCons<T>(a: seq<T>, y: T, rest: seq<T>)
    ensures a + ([y] + rest) == (a + [y]) + rest
  {
  }

  /** Classifying the in-flight nodes from the i-th on, as the wave's loop does. */
  lemma CompleteAllStep(s: Schedule, ns: seq<ExecutionNode>, i: nat)
    requires i < |ns|
    ensures CompleteAll(s, ns[i..]) == CompleteAll(Complete(s, ns[i]), ns[i + 1..])
  {
    assert ns[i..][0] == ns[i] && ns[i..][1..] == ns[i + 1..];
  }

  // ---------------------------------------------------------------------
  // The loops of ExecuteNodeTreeAsync as functions of the schedule.
  // ---------------------------------------------------------------------

  /**
   * What a run of the tree from root has done when ExecuteNodeTreeAsync
   * ends: it kept the invariant, and
   * - on normal completion the queue, the deferred list and both in-flight
   *   lists are empty, every enqueued node was started in FIFO order with
   *   root first, and every node of the tree has finished exactly once;
   * - on cancellation the dispatch loop was about to start a node and saw
   *   the token cancelled;
   * - on a fault nothing was ready or in flight and the flush's priority test
   *   raised the error.
   */
  predicate Ended(schema: Schema, root: ExecutionNode, bound: Option<int>, cancelAfter: Option<nat>,
                  outcome: RunOutcome, run: Schedule)
  {
    && Inv(root, bound, run)
    && (outcome.RanToCompletion? ==>
          && run.pending == [] && run.deferred == [] && run.tasks == [] && run.inFlight == []
          && run.started == run.enqueued && run.started[0] == root
          && multiset(run.finished) == multiset(Ids(root)))
    && (outcome.Canceled? ==> MayStart(run, bound) && CancellationObserved(run, cancelAfter))
    && (outcome.Faulted? ==> run.pending == [] && run.tasks == [] && Flush(schema, run) == Err(outcome.error))
  }

  /**
   * The inner loop: dispatch, then await the wave, until nothing is ready or
   * in flight, or until a dispatch sees the cancellation (the flag). It
   * keeps the invariant and never raises the cost.
   */
  ghost function Waves(root: ExecutionNode, bound: Option<int>, cancelAfter: Option<nat>, s: Schedule): (r: (Schedule, bool))
    requires Inv(root, bound, s) && (bound.None? || bound.value >= 1)
    ensures Inv(root, bound, r.0) && Cost(r.0) <= Cost(s)
    ensures r.1 ==> MayStart(r.0, bound) && CancellationObserved(r.0, cancelAfter)
    ensures !r.1 ==> r.0.pending == [] && r.0.tasks == []
    decreases Cost(s)
  {
    if s.pending == [] && s.tasks == [] then (s, false)
    else
      var d := DispatchReady(s, bound, cancelAfter);
      if d.1 then
        DispatchInv(root, bound, s, cancelAfter);
        d
      else
        WaveProgress(root, bound, s, cancelAfter);
        Waves(root, bound, cancelAfter, Harvest(d.0))
  }

  /**
   * One pass of the outer loop: the inner loop, then the flush of the
   * deferred data loaders. A pass that neither was cancelled nor faulted
   * lowers the outer loop's measure.
   */
  ghost function Pass(schema: Schema, root: ExecutionNode, bound: Option<int>, cancelAfter: Option<nat>, s: Schedule)
    : (r: (RunOutcome, Schedule))
    requires Inv(root, bound, s) && (bound.None? || bound.value >= 1)
    requires s.pending != [] || s.deferred != [] || s.tasks != []
    ensures Inv(root, bound, r.1)
    ensures r.0.RanToCompletion? ==> Measure(r.1) < Measure(s)
    ensures r.0.Canceled? ==> MayStart(r.1, bound) && CancellationObserved(r.1, cancelAfter)
    ensures r.0.Faulted? ==> r.1.pending == [] && r.1.tasks == [] && Flush(schema, r.1) == Err(r.0.error)
  {
    var w := Waves(root, bound, cancelAfter, s);
    if w.1 then (Canceled, w.0)
    else
      match Flush(schema, w.0)
      case Err(e) => (Faulted(e), w.0)
      case Ok(f) =>
        PassProgress(schema, root, bound, s, w.0);
        (RanToCompletion, f)
  }

  /**
   * The outer loop of ExecuteNodeTreeAsync from s: passes until nothing is
   * ready, deferred or in flight, or until a pass ends in an exception.
   * How it ends is described by Ended.
   */
  ghost function Run(schema: Schema, root: ExecutionNode, bound: Option<int>, cancelAfter: Option<nat>, s: Schedule)
    : (r: (RunOutcome, Schedule))
    requires Inv(root, bound, s) && (bound.None? || bound.value >= 1)
    ensures Ended(schema, root, bound, cancelAfter, r.0, r.1)
    decreases Measure(s)
  {
    if s.pending == [] && s.deferred == [] && s.tasks == [] then
      RunComplete(root, bound, s);
      (RanToCompletion, s)
    else
      var p := Pass(schema, root, bound, cancelAfter, s);
      if p.0.RanToCompletion? then Run(schema, root, bound, cancelAfter, p.1) else p
  }

  /** The run of a whole tree, from the root alone on the queue, ends as Ended describes. */
  lemma RunEnded(schema: Schema, root: ExecutionNode, bound: Option<int>, cancelAfter: Option<nat>)
    requires bound.None? || bound.value >= 1
    ensures Inv(root, bound, Initial(root))
    ensures var r := Run(schema, root, bound, cancelAfter, Initial(root));
            Ended(schema, root, bound, cancelAfter, r.0, r.1)
  {
    InitialInv(root, bound);
  }
}
