/**
The run of one message through a rule chain, as a step machine.

A message spawns a tree of contexts. Every context holds the things still going on under it: tasks
submitted to the pool, a `tell` loop in progress, calls of `childDone` not yet made, child contexts,
and, for a flow node, the run of its sub-chain. A step runs one of them; a path of indices says which,
so a schedule is a sequence of paths and every interleaving is some schedule. Each step is one
atomic action of the code: activating a node, one turn of the fan-out loop, one end callback, one
decrement of a counter.
*/
module Engine {
  import opened Messages

  /** The relations of one `tell`: none given at all, or a list (which may be empty). */
  datatype Relations = NoRelation | Given(names: seq<string>)

  /** What an ordinary node does with a message. */
  datatype Behaviour = Panics | Tells(msg: RuleMsg, err: Option<string>, relations: Relations)

  datatype Route = Route(relation: string, target: NodeRef)

  /**
  The loaded chains: the chain id that a flow node is configured with, the behaviour of every other
  node, the resolved connections in definition order, and the first node of each chain in the pool.
  */
  datatype System = System(
    flow: NodeRef -> Option<string>,
    behave: (NodeRef, RuleMsg) -> Behaviour,
    routes: NodeRef -> seq<Route>,
    first: string -> Option<NodeRef>,
    encode: seq<WrapperMsg> -> string)

  /** One turn of `tell`: submit a child task, or end the branch. */
  datatype Action = Spawn(target: NodeRef, relation: string) | Finish(relation: string)

  datatype Part =
    | Pending(node: NodeRef, msg: RuleMsg)
    | Loop(msg: RuleMsg, err: Option<string>, actions: seq<Action>)
    | Ending(msg: RuleMsg, err: Option<string>, relation: string)
    | Owed
    | Child(ctx: Ctx)
    | SubChain(run: Run, msg: RuleMsg)
    | Gone

  /** `waiting` is the code's counter; `reports` counts the calls of the parent's `childDone`. */
  datatype Ctx = Ctx(self: NodeRef, waiting: int, reports: nat, parts: seq<Part>)

  /** A run of one chain: `fired` counts completion callbacks, `ended` lists end callbacks. */
  datatype Run = Run(root: Ctx, fired: nat, ended: seq<End>)

  datatype Label = Tau | Ended(end: End) | Report

  // ---------- telling ----------

  /** The children of a node under one relation, in definition order. */
  function Targets(routes: seq<Route>, relation: string): seq<NodeRef>
  {
    if routes == [] then []
    else if routes[0].relation == relation then [routes[0].target] + Targets(routes[1..], relation)
    else Targets(routes[1..], relation)
  }

  function SpawnAll(targets: seq<NodeRef>, relation: string): seq<Action>
  {
    if targets == [] then [] else [Spawn(targets[0], relation)] + SpawnAll(targets[1..], relation)
  }

  function PlanOne(sys: System, self: NodeRef, relation: string): seq<Action>
  {
    var targets := Targets(sys.routes(self), relation);
    if targets == [] then [Finish(relation)] else SpawnAll(targets, relation)
  }

  function PlanEach(sys: System, self: NodeRef, names: seq<string>): seq<Action>
  {
    if names == [] then [] else PlanOne(sys, self, names[0]) + PlanEach(sys, self, names[1..])
  }

  /** Everything one `tell` does, in order. */
  function Plan(sys: System, self: NodeRef, relations: Relations): seq<Action>
  {
    match relations
    case NoRelation => [Finish("")]
    case Given(names) => PlanEach(sys, self, names)
  }

  function NotFound(chainId: string): Option<string>
  {
    Some("ruleChain id=" + chainId + " not found")
  }

  function NewCtx(self: NodeRef, part: Part): Ctx
  {
    Ctx(self, 0, 0, [part])
  }

  /** A run about to execute its first node: the root counter starts at 0, not 1. */
  function Start(first: NodeRef, msg: RuleMsg): Run
  {
    Run(NewCtx(first, Pending(first, msg)), 0, [])
  }

  /** What a submitted task turns into when it runs: a panic is recovered by the parent's `childDone`. */
  function Activate(sys: System, node: NodeRef, msg: RuleMsg): Part
  {
    match sys.flow(node)
    case None =>
      (match sys.behave(node, msg)
       case Panics => Owed
       case Tells(out, err, relations) =>
         Child(NewCtx(node, Loop(out, err, Plan(sys, node, relations)))))
    case Some(chainId) =>
      (match sys.first(chainId)
       case None => Child(NewCtx(node, Loop(msg, NotFound(chainId), Plan(sys, node, Given([FAILURE])))))
       case Some(f) => Child(NewCtx(node, SubChain(Start(f, msg), msg))))
  }

  /** What a flow node starts telling when its sub-chain completes. */
  function FlowTell(sys: System, self: NodeRef, msg: RuleMsg, ended: seq<End>): Part
  {
    Loop(WrapEnds(sys.encode, msg, ended), None, Plan(sys, self, Given([SUCCESS])))
  }

  // ---------- steps ----------

  function ExecLoop(c: Ctx, i: nat): Ctx
    requires i < |c.parts| && c.parts[i].Loop? && c.parts[i].actions != []
  {
    var Loop(msg, err, actions) := c.parts[i];
    var left := c.parts[i := if |actions| == 1 then Gone else Loop(msg, err, actions[1..])];
    match actions[0]
    case Spawn(target, _) => c.(waiting := c.waiting + 1, parts := left + [Pending(target, msg)])
    case Finish(relation) => c.(parts := left + [Ending(msg, err, relation)])
  }

  /** One call of `childDone`: a counter at or below zero is passed on to the parent. */
  function ExecDone(c: Ctx, i: nat): (Ctx, Label)
    requires i < |c.parts|
  {
    var c' := c.(waiting := c.waiting - 1, parts := c.parts[i := Gone]);
    if c'.waiting <= 0 then (c'.(reports := c.reports + 1), Report) else (c', Tau)
  }

  /** One step of the part that `path` leads to; nothing when there is no such step. */
  function ExecCtx(sys: System, c: Ctx, path: seq<nat>): Option<(Ctx, Label)>
    decreases |path|, 0
  {
    if path == [] || path[0] >= |c.parts| then None else
    var i := path[0];
    match c.parts[i]
    case Gone => None
    case Pending(node, msg) => Some((c.(parts := c.parts[i := Activate(sys, node, msg)]), Tau))
    case Loop(msg, err, actions) => if actions == [] then None else Some((ExecLoop(c, i), Tau))
    case Ending(msg, err, relation) =>
      Some((c.(parts := c.parts[i := Owed]), Ended(End(c.self, msg, err, relation))))
    case Owed => Some(ExecDone(c, i))
    case Child(d) =>
      (match ExecCtx(sys, d, path[1..])
       case None => None
       case Some((d', event)) =>
         var parts' := c.parts[i := Child(d')];
         if event == Report then Some((c.(parts := parts' + [Owed]), Tau))
         else Some((c.(parts := parts'), event)))
    case SubChain(run, msg) =>
      (match ExecRun(sys, run, path[1..])
       case None => None
       case Some((run', fires)) =>
         var parts' := c.parts[i := SubChain(run', msg)];
         if fires then Some((c.(parts := parts' + [FlowTell(sys, c.self, msg, run'.ended)]), Tau))
         else Some((c.(parts := parts'), Tau)))
  }

  /** A step of a whole run; the flag says that it called the completion callback. */
  function ExecRun(sys: System, run: Run, path: seq<nat>): Option<(Run, bool)>
    decreases |path|, 1
  {
    match ExecCtx(sys, run.root, path)
    case None => None
    case Some((root', Tau)) => Some((run.(root := root'), false))
    case Some((root', Ended(e))) => Some((run.(root := root', ended := run.ended + [e]), false))
    case Some((root', Report)) =>
      if run.fired == 0 then Some((run.(root := root', fired := 1), true))
      else Some((run.(root := root'), false))
  }

  /** The state after a whole schedule; nothing if some pick was not possible. */
  function ExecAll(sys: System, run: Run, schedule: seq<seq<nat>>): Option<Run>
    decreases |schedule|
  {
    if schedule == [] then Some(run) else
    match ExecRun(sys, run, schedule[0])
    case None => None
    case Some((run', _)) => ExecAll(sys, run', schedule[1..])
  }
}
