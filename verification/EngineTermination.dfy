/** On acyclic chains every orderly run is finite, with a bound computed from the definition alone. */
module EngineTermination {
  import opened Messages
  import opened Engine
  import opened EngineSafety
  import opened EngineWalk

  /** No activation tells more than `width` relations. */
  ghost predicate TellsAtMost(sys: System, width: nat)
  {
    forall node, msg :: sys.flow(node) == None && sys.behave(node, msg).Tells? &&
                        sys.behave(node, msg).relations.Given? ==>
      |sys.behave(node, msg).relations.names| <= width
  }

  // ---------- the weight of a node: an upper bound on the steps it can cause ----------

  ghost function NodeWeight(sys: System, rank: NodeRef -> nat, width: nat, node: NodeRef): nat
    requires Ranked(sys, rank)
    decreases rank(node), 1, 0
  {
    5 + (width + 1) * (3 + RoutesWeight(sys, rank, width, node, sys.routes(node))) +
    (if sys.flow(node).Some? && sys.first(sys.flow(node).value).Some?
     then NodeWeight(sys, rank, width, sys.first(sys.flow(node).value).value) else 0)
  }

  ghost function RoutesWeight(sys: System, rank: NodeRef -> nat, width: nat, node: NodeRef, routes: seq<Route>): nat
    requires Ranked(sys, rank) && forall i :: 0 <= i < |routes| ==> rank(routes[i].target) < rank(node)
    decreases rank(node), 0, |routes|
  {
    if routes == [] then 0
    else 1 + NodeWeight(sys, rank, width, routes[0].target) + RoutesWeight(sys, rank, width, node, routes[1..])
  }

  ghost function ActionsWeight(sys: System, rank: NodeRef -> nat, width: nat, actions: seq<Action>): nat
    requires Ranked(sys, rank)
  {
    if actions == [] then 0 else
    (if actions[0].Spawn? then 1 + NodeWeight(sys, rank, width, actions[0].target) else 3) +
    ActionsWeight(sys, rank, width, actions[1..])
  }

  ghost function CtxWeight(sys: System, rank: NodeRef -> nat, width: nat, c: Ctx): nat
    requires Ranked(sys, rank)
    decreases c
  {
    PartsWeight(sys, rank, width, c.self, c.parts)
  }

  ghost function PartsWeight(sys: System, rank: NodeRef -> nat, width: nat, self: NodeRef, parts: seq<Part>): nat
    requires Ranked(sys, rank)
    decreases parts
  {
    if parts == [] then 0 else
    PartWeight(sys, rank, width, self, parts[0]) + PartsWeight(sys, rank, width, self, parts[1..])
  }

  ghost function PartWeight(sys: System, rank: NodeRef -> nat, width: nat, self: NodeRef, p: Part): nat
    requires Ranked(sys, rank)
    decreases p
  {
    match p
    case Gone => 0
    case Owed => 1
    case Ending(_, _, _) => 2
    case Pending(node, _) => NodeWeight(sys, rank, width, node)
    case Loop(_, _, actions) => ActionsWeight(sys, rank, width, actions)
    case Child(d) => CtxWeight(sys, rank, width, d) + (if d.reports == 0 then 1 else 0)
    case SubChain(run, _) =>
      CtxWeight(sys, rank, width, run.root) +
      (if run.fired == 0 then ActionsWeight(sys, rank, width, Plan(sys, self, Given([SUCCESS]))) else 0)
  }

  // ---------- weights of plans ----------

  lemma {:induction false} ActionsConcat(sys: System, rank: NodeRef -> nat, width: nat, a: seq<Action>, b: seq<Action>)
    requires Ranked(sys, rank)
    ensures ActionsWeight(sys, rank, width, a + b) ==
            ActionsWeight(sys, rank, width, a) + ActionsWeight(sys, rank, width, b)
  {
    if a == [] {
      assert a + b == b;
    } else {
      ActionsConcat(sys, rank, width, a[1..], b);
      assert (a + b)[1..] == a[1..] + b;
    }
  }

  lemma {:induction false} TargetsWeight(sys: System, rank: NodeRef -> nat, width: nat, node: NodeRef,
                                         routes: seq<Route>, relation: string)
    requires Ranked(sys, rank) && forall i :: 0 <= i < |routes| ==> rank(routes[i].target) < rank(node)
    ensures ActionsWeight(sys, rank, width, SpawnAll(Targets(routes, relation), relation)) <=
            RoutesWeight(sys, rank, width, node, routes)
    decreases |routes|
  {
    if routes == [] {
    } else {
      TargetsWeight(sys, rank, width, node, routes[1..], relation);
      if routes[0].relation == relation {
        var targets := Targets(routes, relation);
        var actions := SpawnAll(targets, relation);
        assert targets[1..] == Targets(routes[1..], relation);
        assert actions[1..] == SpawnAll(targets[1..], relation);
      }
    }
  }

  /** What one relation can cost at most. */
  ghost function OneRelation(sys: System, rank: NodeRef -> nat, width: nat, node: NodeRef): nat
    requires Ranked(sys, rank)
  {
    3 + RoutesWeight(sys, rank, width, node, sys.routes(node))
  }

  lemma PlanOneWeight(sys: System, rank: NodeRef -> nat, width: nat, node: NodeRef, relation: string)
    requires Ranked(sys, rank)
    ensures ActionsWeight(sys, rank, width, PlanOne(sys, node, relation)) <= OneRelation(sys, rank, width, node)
  {
    TargetsWeight(sys, rank, width, node, sys.routes(node), relation);
    var targets := Targets(sys.routes(node), relation);
    if targets == [] {
      var plan := PlanOne(sys, node, relation);
      assert plan == [Finish(relation)] && plan[1..] == [];
    }
  }

  lemma {:induction false} PlanEachWeight(sys: System, rank: NodeRef -> nat, width: nat, node: NodeRef,
                                          names: seq<string>)
    requires Ranked(sys, rank)
    ensures ActionsWeight(sys, rank, width, PlanEach(sys, node, names)) <=
            |names| * OneRelation(sys, rank, width, node)
  {
    if names == [] {
    } else {
      var one := OneRelation(sys, rank, width, node);
      PlanOneWeight(sys, rank, width, node, names[0]);
      PlanEachWeight(sys, rank, width, node, names[1..]);
      ActionsConcat(sys, rank, width, PlanOne(sys, node, names[0]), PlanEach(sys, node, names[1..]));
      assert |names| * one == one + (|names| - 1) * one;
    }
  }

  lemma MulMono(a: nat, b: nat, x: nat)
    requires a <= b
    ensures a * x <= b * x
  {
  }

  lemma PlanWeight(sys: System, rank: NodeRef -> nat, width: nat, node: NodeRef, relations: Relations)
    requires Ranked(sys, rank) && (relations.Given? ==> |relations.names| <= width + 1)
    ensures ActionsWeight(sys, rank, width, Plan(sys, node, relations)) <=
            (width + 1) * OneRelation(sys, rank, width, node)
  {
    var one := OneRelation(sys, rank, width, node);
    match relations
    case NoRelation =>
      var plan := Plan(sys, node, relations);
      assert plan == [Finish("")] && plan[1..] == [];
      MulMono(1, width + 1, one);
    case Given(names) =>
      PlanEachWeight(sys, rank, width, node, names);
      MulMono(|names|, width + 1, one);
  }

  // ---------- weights of parts ----------

  lemma {:induction false} PartsConcat(sys: System, rank: NodeRef -> nat, width: nat, self: NodeRef,
                                       a: seq<Part>, b: seq<Part>)
    requires Ranked(sys, rank)
    ensures PartsWeight(sys, rank, width, self, a + b) ==
            PartsWeight(sys, rank, width, self, a) + PartsWeight(sys, rank, width, self, b)
    decreases |a|
  {
    if a == [] {
      assert a + b == b;
    } else {
      PartsConcat(sys, rank, width, self, a[1..], b);
      assert (a + b)[1..] == a[1..] + b;
    }
  }

  lemma OnePart(sys: System, rank: NodeRef -> nat, width: nat, self: NodeRef, p: Part)
    requires Ranked(sys, rank)
    ensures PartsWeight(sys, rank, width, self, [p]) == PartWeight(sys, rank, width, self, p)
  {
    assert [p][1..] == [];
  }

  lemma PartsUpdate(sys: System, rank: NodeRef -> nat, width: nat, self: NodeRef, parts: seq<Part>, i: nat, p: Part)
    requires Ranked(sys, rank) && i < |parts|
    ensures PartsWeight(sys, rank, width, self, parts[i := p]) + PartWeight(sys, rank, width, self, parts[i]) ==
            PartsWeight(sys, rank, width, self, parts) + PartWeight(sys, rank, width, self, p)
  {
    assert parts == parts[..i] + ([parts[i]] + parts[i + 1..]);
    assert parts[i := p] == parts[..i] + ([p] + parts[i + 1..]);
    PartsConcat(sys, rank, width, self, parts[..i], [parts[i]] + parts[i + 1..]);
    PartsConcat(sys, rank, width, self, parts[..i], [p] + parts[i + 1..]);
    PartsConcat(sys, rank, width, self, [parts[i]], parts[i + 1..]);
    PartsConcat(sys, rank, width, self, [p], parts[i + 1..]);
    OnePart(sys, rank, width, self, parts[i]);
    OnePart(sys, rank, width, self, p);
  }

  /** Part `i` becomes `p`, and `more` is appended: the weight changes by exactly that. */
  lemma Changed(sys: System, rank: NodeRef -> nat, width: nat, c: Ctx, c': Ctx, i: nat, p: Part, more: seq<Part>)
    requires Ranked(sys, rank) && i < |c.parts|
    requires c'.self == c.self && c'.parts == c.parts[i := p] + more
    ensures CtxWeight(sys, rank, width, c') + PartWeight(sys, rank, width, c.self, c.parts[i]) ==
            CtxWeight(sys, rank, width, c) + PartWeight(sys, rank, width, c.self, p) +
            PartsWeight(sys, rank, width, c.self, more)
  {
    PartsUpdate(sys, rank, width, c.self, c.parts, i, p);
    PartsConcat(sys, rank, width, c.self, c.parts[i := p], more);
  }

  lemma ActivateLighter(sys: System, rank: NodeRef -> nat, width: nat, self: NodeRef, node: NodeRef, msg: RuleMsg)
    requires Ranked(sys, rank) && TellsAtMost(sys, width)
    ensures PartWeight(sys, rank, width, self, Activate(sys, node, msg)) < NodeWeight(sys, rank, width, node)
  {
    match sys.flow(node)
    case None =>
      if sys.behave(node, msg).Tells? {
        var Tells(out, err, relations) := sys.behave(node, msg);
        PlanWeight(sys, rank, width, node, relations);
        OnePart(sys, rank, width, node, Loop(out, err, Plan(sys, node, relations)));
      }
    case Some(chainId) =>
      match sys.first(chainId)
      case None =>
        PlanWeight(sys, rank, width, node, Given([FAILURE]));
        OnePart(sys, rank, width, node, Loop(msg, NotFound(chainId), Plan(sys, node, Given([FAILURE]))));
      case Some(f) =>
        PlanWeight(sys, rank, width, node, Given([SUCCESS]));
        OnePart(sys, rank, width, f, Pending(f, msg));
        OnePart(sys, rank, width, node, SubChain(Start(f, msg), msg));
  }

  // ---------- every step is paid for ----------

  /** A step lowers the weight of a context, and a report is paid for by the drop in `reports`. */
  lemma LeafLighter(sys: System, rank: NodeRef -> nat, width: nat, c: Ctx, path: seq<nat>)
    requires Ranked(sys, rank) && TellsAtMost(sys, width) && ExecCtx(sys, c, path).Some?
    requires !c.parts[path[0]].Child? && !c.parts[path[0]].SubChain?
    ensures CtxWeight(sys, rank, width, ExecCtx(sys, c, path).value.0) < CtxWeight(sys, rank, width, c)
  {
    var i := path[0];
    var c' := ExecCtx(sys, c, path).value.0;
    match c.parts[i]
    case Pending(node, msg) =>
      ActivateLighter(sys, rank, width, c.self, node, msg);
      assert c'.parts == c.parts[i := Activate(sys, node, msg)] + [];
      Changed(sys, rank, width, c, c', i, Activate(sys, node, msg), []);
    case Loop(_, _, actions) => LoopLighter(sys, rank, width, c, i);
    case Ending(_, _, _) =>
      assert c'.parts == c.parts[i := Owed] + [];
      Changed(sys, rank, width, c, c', i, Owed, []);
    case Owed =>
      assert c'.parts == c.parts[i := Gone] + [];
      Changed(sys, rank, width, c, c', i, Gone, []);
  }

  lemma LoopLighter(sys: System, rank: NodeRef -> nat, width: nat, c: Ctx, i: nat)
    requires Ranked(sys, rank) && i < |c.parts| && c.parts[i].Loop? && c.parts[i].actions != []
    ensures CtxWeight(sys, rank, width, ExecLoop(c, i)) < CtxWeight(sys, rank, width, c)
  {
    var Loop(msg, err, actions) := c.parts[i];
    var c' := ExecLoop(c, i);
    var rest := if |actions| == 1 then Gone else Loop(msg, err, actions[1..]);
    var last := c'.parts[|c.parts|];
    assert c'.parts == c.parts[i := rest] + [last];
    Changed(sys, rank, width, c, c', i, rest, [last]);
    OnePart(sys, rank, width, c.self, last);
    assert |actions| == 1 ==> actions[1..] == [];
  }

  lemma {:induction false} StepLighter(sys: System, rank: NodeRef -> nat, width: nat, c: Ctx, path: seq<nat>)
    requires TellsOnce(sys) && Ranked(sys, rank) && TellsAtMost(sys, width)
    requires Inv(c) && ExecCtx(sys, c, path).Some? && !Premature(c, path)
    ensures CtxWeight(sys, rank, width, ExecCtx(sys, c, path).value.0) < CtxWeight(sys, rank, width, c)
    decreases |path|
  {
    var i := path[0];
    var p := c.parts[i];
    assert p in c.parts && InvPart(p);
    var c' := ExecCtx(sys, c, path).value.0;
    if p.Child? {
      StepLighter(sys, rank, width, p.ctx, path[1..]);
      StepInv(sys, p.ctx, path[1..]);
      var (d', event) := ExecCtx(sys, p.ctx, path[1..]).value;
      var more := if event == Report then [Owed] else [];
      assert c'.parts == c.parts[i := Child(d')] + more;
      Changed(sys, rank, width, c, c', i, Child(d'), more);
      OnePart(sys, rank, width, c.self, Owed);
    } else if p.SubChain? {
      StepLighter(sys, rank, width, p.run.root, path[1..]);
      StepRunInv(sys, p.run, path[1..]);
      var (run', fires) := ExecRun(sys, p.run, path[1..]).value;
      var told := FlowTell(sys, c.self, p.msg, run'.ended);
      var more := if fires then [told] else [];
      assert c'.parts == c.parts[i := SubChain(run', p.msg)] + more;
      Changed(sys, rank, width, c, c', i, SubChain(run', p.msg), more);
      OnePart(sys, rank, width, c.self, told);
    } else {
      LeafLighter(sys, rank, width, c, path);
    }
  }

  lemma {:induction false} RunLighter(sys: System, rank: NodeRef -> nat, width: nat, run: Run, schedule: seq<seq<nat>>)
    requires TellsOnce(sys) && Ranked(sys, rank) && TellsAtMost(sys, width)
    requires InvRun(run) && Orderly(sys, run, schedule)
    ensures |schedule| <= CtxWeight(sys, rank, width, run.root)
    decreases |schedule|
  {
    if schedule == [] {
    } else {
      StepLighter(sys, rank, width, run.root, schedule[0]);
      StepRunInv(sys, run, schedule[0]);
      RunLighter(sys, rank, width, ExecRun(sys, run, schedule[0]).value.0, schedule[1..]);
    }
  }

  /** No orderly schedule is longer than the weight of the first node. */
  lemma RunsAreBounded(sys: System, rank: NodeRef -> nat, width: nat, first: NodeRef, msg: RuleMsg,
                       schedule: seq<seq<nat>>)
    requires TellsOnce(sys) && Ranked(sys, rank) && TellsAtMost(sys, width)
    requires Orderly(sys, Start(first, msg), schedule)
    ensures |schedule| <= NodeWeight(sys, rank, width, first)
  {
    StartInv(first, msg);
    OnePart(sys, rank, width, first, Pending(first, msg));
    RunLighter(sys, rank, width, Start(first, msg), schedule);
  }

  lemma {:induction false} CanFinish(sys: System, rank: NodeRef -> nat, width: nat, run: Run)
    returns (rest: seq<seq<nat>>)
    requires TellsOnce(sys) && Ranked(sys, rank) && TellsAtMost(sys, width) && InvRun(run)
    ensures Orderly(sys, run, rest) && ExecAll(sys, run, rest).Some?
    ensures ExecAll(sys, run, rest).value.fired == 1
    decreases CtxWeight(sys, rank, width, run.root)
  {
    if run.fired > 0 {
      rest := [];
    } else {
      var path := Progress(sys, run.root);
      StepLighter(sys, rank, width, run.root, path);
      StepRunInv(sys, run, path);
      var later := CanFinish(sys, rank, width, ExecRun(sys, run, path).value.0);
      rest := [path] + later;
      assert rest[1..] == later;
    }
  }

  /**
  Every orderly run completes: it cannot go on for ever, it cannot stop short, and wherever it stands it
  can be continued to a completion.
  */
  lemma EveryRunCompletes(sys: System, rank: NodeRef -> nat, width: nat, first: NodeRef, msg: RuleMsg,
                          schedule: seq<seq<nat>>) returns (rest: seq<seq<nat>>)
    requires TellsOnce(sys) && Ranked(sys, rank) && TellsAtMost(sys, width)
    requires Orderly(sys, Start(first, msg), schedule)
    ensures |schedule| <= NodeWeight(sys, rank, width, first)
    ensures ExecAll(sys, Start(first, msg), schedule).Some?
    ensures var run := ExecAll(sys, Start(first, msg), schedule).value;
            Orderly(sys, run, rest) && ExecAll(sys, run, rest).Some? &&
            ExecAll(sys, run, rest).value.fired == 1
  {
    RunsAreBounded(sys, rank, width, first, msg, schedule);
    StartInv(first, msg);
    RunInv(sys, Start(first, msg), schedule);
    rest := CanFinish(sys, rank, width, ExecAll(sys, Start(first, msg), schedule).value);
  }
}
