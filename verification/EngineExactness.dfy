/** Why the engine's assumptions are needed, and which chains and which tells meet them. */
module EngineExactness {
  import opened Messages
  import opened Sums
  import opened Engine
  import opened EngineSafety

  // ---------- chains without fan-out need no assumption on interleavings ----------

  /** No relation of any node leads to two nodes, and no node tells two relations. */
  ghost predicate NoFanOut(sys: System)
  {
    && (forall node, relation :: |Targets(sys.routes(node), relation)| <= 1)
    && (forall node, msg ::
          sys.flow(node) == None && sys.behave(node, msg).Tells? && sys.behave(node, msg).relations.Given? ==>
          |sys.behave(node, msg).relations.names| <= 1)
  }

  lemma PlanNarrow(sys: System, node: NodeRef, relations: Relations)
    requires NoFanOut(sys) && (relations.Given? ==> |relations.names| <= 1)
    ensures |Plan(sys, node, relations)| <= 1
  {
    if relations.Given? && relations.names != [] {
      var relation := relations.names[0];
      SpawnAllSpawns(Targets(sys.routes(node), relation), relation);
      assert PlanEach(sys, node, relations.names[1..]) == [];
    }
  }

  /** A loop still going has a single action left and nothing outstanding beside it. */
  ghost predicate Narrow(c: Ctx)
    decreases c
  {
    (Tellers(c) > 0 ==> Outstanding(c) == 0) && forall p :: p in c.parts ==> NarrowPart(p)
  }

  ghost predicate NarrowPart(p: Part)
    decreases p
  {
    match p
    case Loop(_, _, actions) => |actions| <= 1
    case Child(d) => Narrow(d)
    case SubChain(run, _) => Narrow(run.root)
    case _ => true
  }

  lemma NewCtxNarrow(self: NodeRef, p: Part)
    requires NarrowPart(p) && OutOf(p) + TellerOf(p) == 1
    ensures Narrow(NewCtx(self, p))
  {
    assert NewCtx(self, p).parts == [p];
    SumOne(OutOf, p);
    SumOne(TellerOf, p);
  }

  lemma ActivateNarrow(sys: System, node: NodeRef, msg: RuleMsg)
    requires NoFanOut(sys)
    ensures NarrowPart(Activate(sys, node, msg))
  {
    match sys.flow(node)
    case None =>
      if sys.behave(node, msg).Tells? {
        var Tells(out, err, relations) := sys.behave(node, msg);
        PlanNarrow(sys, node, relations);
        NewCtxNarrow(node, Loop(out, err, Plan(sys, node, relations)));
      }
    case Some(chainId) =>
      match sys.first(chainId)
      case None =>
        PlanNarrow(sys, node, Given([FAILURE]));
        NewCtxNarrow(node, Loop(msg, NotFound(chainId), Plan(sys, node, Given([FAILURE]))));
      case Some(f) =>
        NewCtxNarrow(f, Pending(f, msg));
        NewCtxNarrow(node, SubChain(Start(f, msg), msg));
  }

  lemma NarrowNotPremature(c: Ctx, path: seq<nat>)
    requires Narrow(c)
    ensures !Premature(c, path)
    decreases |path|
  {
    if path != [] && path[0] < |c.parts| {
      var p := c.parts[path[0]];
      assert p in c.parts && NarrowPart(p);
      SumAtLeast(OutOf, c.parts, path[0]);
      match p
      case Child(d) => NarrowNotPremature(d, path[1..]);
      case SubChain(run, _) => NarrowNotPremature(run.root, path[1..]);
      case _ =>
    }
  }

  lemma ReplaceNarrow(c: Ctx, i: nat, p: Part)
    requires Narrow(c) && i < |c.parts| && NarrowPart(p)
    requires OutOf(p) <= OutOf(c.parts[i]) && TellerOf(p) <= TellerOf(c.parts[i])
    ensures Narrow(c.(parts := c.parts[i := p]))
  {
    Replaced(c, i, p);
    forall q | q in c.parts[i := p]
      ensures NarrowPart(q)
    {
      assert q == p || q in c.parts;
    }
  }

  lemma AppendNarrow(c: Ctx, p: Part)
    requires Narrow(c) && NarrowPart(p)
    requires if TellerOf(p) > 0 then OutOf(p) == 0 && Outstanding(c) == 0 else OutOf(p) == 0 || Tellers(c) == 0
    ensures Narrow(c.(parts := c.parts + [p]))
  {
    Appended(c.parts, p);
    forall q | q in c.parts + [p]
      ensures NarrowPart(q)
    {
      assert q == p || q in c.parts;
    }
  }

  lemma LoopNarrow(c: Ctx, i: nat)
    requires Inv(c) && Narrow(c) && i < |c.parts| && c.parts[i].Loop? && c.parts[i].actions != []
    ensures Narrow(ExecLoop(c, i))
  {
    assert c.parts[i] in c.parts && NarrowPart(c.parts[i]);
    Replaced(c, i, Gone);
    ReplaceNarrow(c, i, Gone);
    var left := c.(parts := c.parts[i := Gone]);
    var c' := ExecLoop(c, i);
    AppendNarrow(left, c'.parts[|c.parts|]);
    assert c'.parts == (left.parts + [c'.parts[|c.parts|]]);
  }

  lemma {:induction false} StepNarrow(sys: System, c: Ctx, path: seq<nat>)
    requires TellsOnce(sys) && NoFanOut(sys) && Inv(c) && Narrow(c) && ExecCtx(sys, c, path).Some?
    ensures Narrow(ExecCtx(sys, c, path).value.0)
    decreases |path|, 0
  {
    var i := path[0];
    var p := c.parts[i];
    assert p in c.parts && InvPart(p) && NarrowPart(p);
    match p
    case Pending(node, msg) =>
      ActivateNarrow(sys, node, msg);
      ActivateInv(sys, node, msg);
      ReplaceNarrow(c, i, Activate(sys, node, msg));
    case Loop(_, _, actions) => LoopNarrow(c, i);
    case Ending(_, _, _) => ReplaceNarrow(c, i, Owed);
    case Owed => ReplaceNarrow(c, i, Gone);
    case Child(d) => ChildNarrow(sys, c, path);
    case SubChain(run, msg) => FlowNarrow(sys, c, path);
  }

  lemma {:induction false} ChildNarrow(sys: System, c: Ctx, path: seq<nat>)
    requires TellsOnce(sys) && NoFanOut(sys) && Inv(c) && Narrow(c) && ExecCtx(sys, c, path).Some?
    requires c.parts[path[0]].Child?
    ensures Narrow(ExecCtx(sys, c, path).value.0)
    decreases |path[1..]|, 1
  {
    var i, d := path[0], c.parts[path[0]].ctx;
    assert c.parts[i] in c.parts && InvPart(c.parts[i]) && NarrowPart(c.parts[i]);
    NarrowNotPremature(d, path[1..]);
    StepInv(sys, d, path[1..]);
    StepNarrow(sys, d, path[1..]);
    var (d', event) := ExecCtx(sys, d, path[1..]).value;
    ReplaceNarrow(c, i, Child(d'));
    if event == Report {
      Replaced(c, i, Child(d'));
      AppendNarrow(c.(parts := c.parts[i := Child(d')]), Owed);
    }
  }

  lemma {:induction false} FlowNarrow(sys: System, c: Ctx, path: seq<nat>)
    requires TellsOnce(sys) && NoFanOut(sys) && Inv(c) && Narrow(c) && ExecCtx(sys, c, path).Some?
    requires c.parts[path[0]].SubChain?
    ensures Narrow(ExecCtx(sys, c, path).value.0)
    decreases |path[1..]|, 1
  {
    var i := path[0];
    var SubChain(run, msg) := c.parts[i];
    assert c.parts[i] in c.parts && InvPart(c.parts[i]) && NarrowPart(c.parts[i]);
    NarrowNotPremature(run.root, path[1..]);
    StepRunInv(sys, run, path[1..]);
    StepNarrow(sys, run.root, path[1..]);
    var (run', fires) := ExecRun(sys, run, path[1..]).value;
    Replaced(c, i, SubChain(run', msg));
    ReplaceNarrow(c, i, SubChain(run', msg));
    if fires {
      PlanNarrow(sys, c.self, Given([SUCCESS]));
      AppendNarrow(c.(parts := c.parts[i := SubChain(run', msg)]), FlowTell(sys, c.self, msg, run'.ended));
    }
  }

  lemma {:induction false} NarrowOrderly(sys: System, run: Run, schedule: seq<seq<nat>>)
    requires TellsOnce(sys) && NoFanOut(sys) && InvRun(run) && Narrow(run.root)
    requires ExecAll(sys, run, schedule).Some?
    ensures Orderly(sys, run, schedule)
    decreases |schedule|
  {
    if schedule == [] {
    } else {
      NarrowNotPremature(run.root, schedule[0]);
      StepRunInv(sys, run, schedule[0]);
      StepNarrow(sys, run.root, schedule[0]);
      NarrowOrderly(sys, ExecRun(sys, run, schedule[0]).value.0, schedule[1..]);
    }
  }

  /** Without fan-out, every possible schedule is orderly: completion is exact with no assumption. */
  lemma NoFanOutIsSafe(sys: System, first: NodeRef, msg: RuleMsg, schedule: seq<seq<nat>>)
    requires TellsOnce(sys) && NoFanOut(sys) && ExecAll(sys, Start(first, msg), schedule).Some?
    ensures Orderly(sys, Start(first, msg), schedule)
  {
    StartInv(first, msg);
    NewCtxNarrow(first, Pending(first, msg));
    NarrowOrderly(sys, Start(first, msg), schedule);
  }

  // ---------- an atomic fan-out loop is enough ----------

  /** Wherever the step passes a context that is still telling, it is a step of that telling. */
  ghost predicate LoopFirst(c: Ctx, path: seq<nat>)
    decreases |path|
  {
    path != [] && path[0] < |c.parts| &&
    (Tellers(c) > 0 ==> TellerOf(c.parts[path[0]]) > 0) &&
    match c.parts[path[0]]
    case Child(d) => LoopFirst(d, path[1..])
    case SubChain(run, _) => LoopFirst(run.root, path[1..])
    case _ => true
  }

  /** Nothing happens under a context, or to it, while its fan-out loop is going. */
  ghost predicate LoopsAtomic(sys: System, run: Run, schedule: seq<seq<nat>>)
    decreases |schedule|
  {
    schedule == [] ||
    (LoopFirst(run.root, schedule[0]) && ExecRun(sys, run, schedule[0]).Some? &&
     LoopsAtomic(sys, ExecRun(sys, run, schedule[0]).value.0, schedule[1..]))
  }

  lemma {:induction false} LoopFirstNotPremature(c: Ctx, path: seq<nat>)
    requires LoopFirst(c, path)
    ensures !Premature(c, path)
    decreases |path|
  {
    match c.parts[path[0]]
    case Child(d) => LoopFirstNotPremature(d, path[1..]);
    case SubChain(run, _) => LoopFirstNotPremature(run.root, path[1..]);
    case _ =>
  }

  /** If every fan-out loop runs without interruption, the schedule is orderly. */
  lemma {:induction false} AtomicLoopsAreOrderly(sys: System, run: Run, schedule: seq<seq<nat>>)
    requires LoopsAtomic(sys, run, schedule)
    ensures Orderly(sys, run, schedule)
    decreases |schedule|
  {
    if schedule == [] {
    } else {
      LoopFirstNotPremature(run.root, schedule[0]);
      AtomicLoopsAreOrderly(sys, ExecRun(sys, run, schedule[0]).value.0, schedule[1..]);
    }
  }

  // ---------- which tells make a context report once ----------

  /** Decrements that are due at the given places, each once. */
  ghost predicate Due(c: Ctx, places: seq<nat>)
  {
    && (forall k :: 0 <= k < |places| ==> places[k] < |c.parts| && c.parts[places[k]] == Owed)
    && (forall j, k :: 0 <= j < k < |places| ==> places[j] != places[k])
  }

  lemma DueNext(c: Ctx, places: seq<nat>)
    requires Due(c, places) && places != []
    ensures Due(ExecDone(c, places[0]).0, places[1..])
  {
  }

  /** The context after those calls of `childDone`, one after another. */
  ghost function DoneAll(c: Ctx, places: seq<nat>): Ctx
    requires Due(c, places)
    decreases |places|
  {
    if places == [] then c else
    DueNext(c, places);
    DoneAll(ExecDone(c, places[0]).0, places[1..])
  }

  /** A context after a schedule of its own steps. */
  function CtxAll(sys: System, c: Ctx, schedule: seq<seq<nat>>): Option<Ctx>
    decreases |schedule|
  {
    if schedule == [] then Some(c) else
    match ExecCtx(sys, c, schedule[0])
    case None => None
    case Some((c', _)) => CtxAll(sys, c', schedule[1..])
  }

  /** The schedule that runs the parts at the given places. */
  function AtEach(places: seq<nat>): seq<seq<nat>>
  {
    if places == [] then [] else [[places[0]]] + AtEach(places[1..])
  }

  /** The decrements that are due, in any order, are steps of the machine. */
  lemma {:induction false} DoneAllSteps(sys: System, c: Ctx, places: seq<nat>)
    requires Due(c, places)
    ensures CtxAll(sys, c, AtEach(places)) == Some(DoneAll(c, places))
    decreases |places|
  {
    if places == [] {
    } else {
      DueNext(c, places);
      assert c.parts[places[0]] == Owed;
      DoneAllSteps(sys, ExecDone(c, places[0]).0, places[1..]);
      assert AtEach(places)[1..] == AtEach(places[1..]);
    }
  }

  lemma {:induction false} DoneAllReports(c: Ctx, places: seq<nat>)
    requires Due(c, places)
    ensures var past := |places| - (if c.waiting > 1 then c.waiting - 1 else 0);
            DoneAll(c, places).reports == c.reports + (if past > 0 then past else 0)
    decreases |places|
  {
    if places == [] {
    } else {
      DueNext(c, places);
      DoneAllReports(ExecDone(c, places[0]).0, places[1..]);
    }
  }

  lemma {:induction false} SpawnedBounds(actions: seq<Action>)
    ensures Spawned(actions) <= |actions|
    ensures Spawned(actions) == |actions| <==> forall a :: a in actions ==> a.Spawn?
  {
    if actions == [] {
    } else {
      SpawnedBounds(actions[1..]);
      assert actions[0] in actions;
      assert forall a :: a in actions <==> a == actions[0] || a in actions[1..];
    }
  }

  /**
  One decrement arrives for every action of a tell. The context reports to its parent exactly once if
  and only if the tell made only children or was a single end; two unmatched relations report twice,
  an empty list of relations never reports.
  */
  lemma ReportsOnceIff(sys: System, c: Ctx, actions: seq<Action>, places: seq<nat>)
    requires c.waiting == Spawned(actions) && c.reports == 0
    requires |places| == |actions| && Due(c, places)
    ensures CtxAll(sys, c, AtEach(places)).Some?
    ensures CtxAll(sys, c, AtEach(places)).value.reports == 1 <==> Balanced(actions)
  {
    DoneAllSteps(sys, c, places);
    DoneAllReports(c, places);
    SpawnedBounds(actions);
    if |actions| == 1 {
      assert actions[0] in actions;
    }
  }

  // ---------- a tell of two unmatched relations completes a run early ----------

  const TWO := ["x", "y"]

  /** No node is connected to anything; every node tells two relations. */
  function Forked(): System
  {
    System(node => None, (node, msg) => Tells(msg, None, Given(TWO)), node => [], chainId => None,
           (list: seq<WrapperMsg>) => "")
  }

  lemma ForkedPlan(node: NodeRef)
    ensures Plan(Forked(), node, Given(TWO)) == [Finish("x"), Finish("y")]
    ensures !Balanced(Plan(Forked(), node, Given(TWO)))
  {
    assert TWO[1..] == ["y"] && ["y"][1..] == [];
    assert PlanEach(Forked(), node, ["y"]) == [Finish("y")];
    assert PlanEach(Forked(), node, TWO) == [Finish("x")] + [Finish("y")];
    assert Finish("x") in Plan(Forked(), node, Given(TWO));
  }

  /** The context of the first node along the run: both ends submitted, one of them over. */
  function ForkAt(msg: RuleMsg, k: nat): Ctx
  {
    if k == 0 then NewCtx(A, Loop(msg, None, [Finish("x"), Finish("y")]))
    else if k == 1 then Ctx(A, 0, 0, [Loop(msg, None, [Finish("y")]), Ending(msg, None, "x")])
    else if k == 2 then Ctx(A, 0, 0, [Gone, Ending(msg, None, "x"), Ending(msg, None, "y")])
    else if k == 3 then Ctx(A, 0, 0, [Gone, Owed, Ending(msg, None, "y")])
    else Ctx(A, -1, 1, [Gone, Gone, Ending(msg, None, "y")])
  }

  function ForkRun(msg: RuleMsg, k: nat): Run
  {
    var ended := if k <= 2 then [] else [End(A, msg, None, "x")];
    if k <= 3 then Run(Ctx(A, 0, 0, [Child(ForkAt(msg, k))]), 0, ended)
    else if k == 4 then Run(Ctx(A, 0, 0, [Child(ForkAt(msg, 4)), Owed]), 0, ended)
    else Run(Ctx(A, -1, 1, [Child(ForkAt(msg, 4)), Gone]), 1, ended)
  }

  function ForkSchedule(): seq<seq<nat>>
  {
    [[0], [0, 0], [0, 0], [0, 1], [0, 1], [1]]
  }

  lemma StepsOfFork(msg: RuleMsg)
    ensures var sys := Forked();
            && ExecCtx(sys, ForkAt(msg, 0), [0]) == Some((ForkAt(msg, 1), Tau))
            && ExecCtx(sys, ForkAt(msg, 1), [0]) == Some((ForkAt(msg, 2), Tau))
            && ExecCtx(sys, ForkAt(msg, 2), [1]) == Some((ForkAt(msg, 3), Ended(End(A, msg, None, "x"))))
            && ExecCtx(sys, ForkAt(msg, 3), [1]) == Some((ForkAt(msg, 4), Report))
  {
    assert [Finish("x"), Finish("y")][1..] == [Finish("y")];
    assert ExecLoop(ForkAt(msg, 0), 0).parts == ForkAt(msg, 1).parts;
    assert ExecLoop(ForkAt(msg, 1), 0).parts == ForkAt(msg, 2).parts;
    assert ForkAt(msg, 2).parts[1 := Owed] == ForkAt(msg, 3).parts;
    assert ForkAt(msg, 3).parts[1 := Gone] == ForkAt(msg, 4).parts;
  }

  lemma ForkStep(msg: RuleMsg, k: nat)
    requires k <= 4
    ensures var next := ExecRun(Forked(), ForkRun(msg, k), ForkSchedule()[k + 1]);
            next.Some? && next.value.0 == ForkRun(msg, k + 1) && !Premature(ForkRun(msg, k).root, ForkSchedule()[k + 1])
  {
    var sys, path, run := Forked(), ForkSchedule()[k + 1], ForkRun(msg, k);
    if k < 4 {
      StepsOfFork(msg);
      assert path[1..] == [[0], [0], [1], [1]][k];
      Inside(sys, run.root, path);
      assert run.root.parts[0 := Child(ForkAt(msg, k + 1))] == [Child(ForkAt(msg, k + 1))];
      if k == 3 {
        assert !Premature(ForkAt(msg, 3), [1]) by {
          SumZero(TellerOf, ForkAt(msg, 3).parts);
        }
      }
    } else {
      assert run.root.parts[1 := Gone] == ForkRun(msg, 5).root.parts;
      SumZero(TellerOf, run.root.parts);
    }
  }

  lemma {:induction false} ForkFrom(msg: RuleMsg, k: nat)
    requires k <= 5
    ensures ExecAll(Forked(), ForkRun(msg, k), ForkSchedule()[k + 1..]) == Some(ForkRun(msg, 5))
    ensures Orderly(Forked(), ForkRun(msg, k), ForkSchedule()[k + 1..])
    decreases 5 - k
  {
    var rest := ForkSchedule()[k + 1..];
    if k == 5 {
    } else {
      ForkStep(msg, k);
      ForkFrom(msg, k + 1);
      assert rest[0] == ForkSchedule()[k + 1] && rest[1..] == ForkSchedule()[k + 2..];
    }
  }

  /**
  Why a tell has to balance: with two unmatched relations an orderly run completes while the second end
  callback is still waiting to run.
  */
  lemma UnbalancedCompletion(msg: RuleMsg)
    ensures var run := ExecAll(Forked(), Start(A, msg), ForkSchedule());
            && Orderly(Forked(), Start(A, msg), ForkSchedule())
            && run.Some? && run.value.fired == 1 && run.value.ended == [End(A, msg, None, "x")]
            && ExecCtx(Forked(), run.value.root, [0, 2]).Some?
            && ExecCtx(Forked(), run.value.root, [0, 2]).value.1 == Ended(End(A, msg, None, "y"))
  {
    ForkStart(msg);
    ForkFrom(msg, 0);
    assert ForkSchedule()[0] == [0] && ForkSchedule()[1..] == ForkSchedule()[0 + 1..];
    assert ExecAll(Forked(), Start(A, msg), ForkSchedule()) == Some(ForkRun(msg, 5));
    ForkLeftover(msg);
  }

  lemma ForkStart(msg: RuleMsg)
    ensures ExecRun(Forked(), Start(A, msg), [0]) == Some((ForkRun(msg, 0), false))
    ensures !Premature(Start(A, msg).root, [0])
  {
    ForkedPlan(A);
    assert Activate(Forked(), A, msg) == Child(ForkAt(msg, 0));
    assert Start(A, msg).root.parts[0 := Child(ForkAt(msg, 0))] == [Child(ForkAt(msg, 0))];
  }

  lemma ForkLeftover(msg: RuleMsg)
    ensures var next := ExecCtx(Forked(), ForkRun(msg, 5).root, [0, 2]);
            next.Some? && next.value.1 == Ended(End(A, msg, None, "y"))
  {
    assert [0, 2][1..] == [2];
    Inside(Forked(), ForkRun(msg, 5).root, [0, 2]);
  }

  // ---------- a premature step completes a run early ----------

  const A := NodeRef("chain", "a")
  const B := NodeRef("chain", "b")
  const C := NodeRef("chain", "c")

  /** a is connected to b and to c by Success; every node tells Success. */
  function Diamond(): System
  {
    System(node => None,
           (node, msg) => Tells(msg, None, Given([SUCCESS])),
           (node: NodeRef) => if node == A then [Route(SUCCESS, B), Route(SUCCESS, C)] else [],
           (chainId: string) => None,
           (list: seq<WrapperMsg>) => "")
  }

  function EarlySchedule(): seq<seq<nat>>
  {
    [[0], [0, 0], [0, 1], [0, 1, 0], [0, 1, 1], [0, 1, 1], [0, 2], [1]]
  }

  lemma DiamondPlans()
    ensures Plan(Diamond(), A, Given([SUCCESS])) == [Spawn(B, SUCCESS), Spawn(C, SUCCESS)]
    ensures Plan(Diamond(), B, Given([SUCCESS])) == [Finish(SUCCESS)]
    ensures TellsOnce(Diamond())
  {
    var sys := Diamond();
    var routes := [Route(SUCCESS, B), Route(SUCCESS, C)];
    assert routes[1..] == [Route(SUCCESS, C)];
    assert Targets(routes[1..], SUCCESS) == [C];
    var targets := Targets(sys.routes(A), SUCCESS);
    assert targets == [B, C];
    assert targets[1..] == [C] && [C][1..] == [];
    assert SpawnAll(targets[1..], SUCCESS) == [Spawn(C, SUCCESS)];
    assert SpawnAll(targets, SUCCESS) == [Spawn(B, SUCCESS), Spawn(C, SUCCESS)];
    forall n
      ensures Plan(sys, n, Given([SUCCESS])) == PlanOne(sys, n, SUCCESS)
    {
      assert [SUCCESS][1..] == [];
      assert PlanEach(sys, n, [SUCCESS][1..]) == [];
      assert PlanEach(sys, n, [SUCCESS]) == PlanOne(sys, n, SUCCESS) + [];
    }
    forall node, m | sys.behave(node, m).Tells?
      ensures Balanced(Plan(sys, node, sys.behave(node, m).relations))
    {
      PlanOneBalanced(sys, node, SUCCESS);
    }
  }

  /** A step inside child `i`, seen from the parent. */
  lemma Inside(sys: System, c: Ctx, path: seq<nat>)
    requires path != [] && path[0] < |c.parts| && c.parts[path[0]].Child?
    requires ExecCtx(sys, c.parts[path[0]].ctx, path[1..]).Some?
    ensures var i := path[0];
            var (d', event) := ExecCtx(sys, c.parts[i].ctx, path[1..]).value;
            ExecCtx(sys, c, path) ==
              if event == Report then Some((c.(parts := c.parts[i := Child(d')] + [Owed]), Tau))
              else Some((c.(parts := c.parts[i := Child(d')]), event))
  {
  }

  /** The contexts of `a` and `b` along the early schedule. */
  function Left(msg: RuleMsg): Part { Loop(msg, None, [Spawn(C, SUCCESS)]) }

  function BAt(msg: RuleMsg, k: nat): Ctx
  {
    if k == 0 then NewCtx(B, Loop(msg, None, [Finish(SUCCESS)]))
    else if k == 1 then Ctx(B, 0, 0, [Gone, Ending(msg, None, SUCCESS)])
    else if k == 2 then Ctx(B, 0, 0, [Gone, Owed])
    else Ctx(B, -1, 1, [Gone, Gone])
  }

  function AAt(msg: RuleMsg, k: nat): Ctx
  {
    if k == 0 then NewCtx(A, Loop(msg, None, [Spawn(B, SUCCESS), Spawn(C, SUCCESS)]))
    else if k == 1 then Ctx(A, 1, 0, [Left(msg), Pending(B, msg)])
    else if k <= 4 then Ctx(A, 1, 0, [Left(msg), Child(BAt(msg, k - 2))])
    else if k == 5 then Ctx(A, 1, 0, [Left(msg), Child(BAt(msg, 3)), Owed])
    else Ctx(A, 0, 1, [Left(msg), Child(BAt(msg, 3)), Gone])
  }

  function EndOfB(msg: RuleMsg): End { End(B, msg, None, SUCCESS) }

  lemma StepsOfB(msg: RuleMsg)
    ensures var sys := Diamond();
            && ExecCtx(sys, BAt(msg, 0), [0]) == Some((BAt(msg, 1), Tau))
            && ExecCtx(sys, BAt(msg, 1), [1]) == Some((BAt(msg, 2), Ended(EndOfB(msg))))
            && ExecCtx(sys, BAt(msg, 2), [1]) == Some((BAt(msg, 3), Report))
  {
    assert ExecLoop(BAt(msg, 0), 0).parts == BAt(msg, 1).parts;
    assert BAt(msg, 1).parts[1 := Owed] == BAt(msg, 2).parts;
    assert BAt(msg, 2).parts[1 := Gone] == BAt(msg, 3).parts;
  }

  lemma StepsOfA(msg: RuleMsg)
    ensures var sys := Diamond();
            && ExecCtx(sys, AAt(msg, 0), [0]) == Some((AAt(msg, 1), Tau))
            && ExecCtx(sys, AAt(msg, 1), [1]) == Some((AAt(msg, 2), Tau))
            && ExecCtx(sys, AAt(msg, 2), [1, 0]) == Some((AAt(msg, 3), Tau))
            && ExecCtx(sys, AAt(msg, 3), [1, 1]) == Some((AAt(msg, 4), Ended(EndOfB(msg))))
            && ExecCtx(sys, AAt(msg, 4), [1, 1]) == Some((AAt(msg, 5), Tau))
            && ExecCtx(sys, AAt(msg, 5), [2]) == Some((AAt(msg, 6), Report))
            && Premature(AAt(msg, 5), [2])
  {
    var sys := Diamond();
    DiamondPlans();
    StepsOfB(msg);
    assert ExecLoop(AAt(msg, 0), 0).parts == AAt(msg, 1).parts;
    assert Activate(sys, B, msg) == Child(BAt(msg, 0));
    assert AAt(msg, 1).parts[1 := Child(BAt(msg, 0))] == AAt(msg, 2).parts;
    assert [1, 0][1..] == [0] && [1, 1][1..] == [1];
    Inside(sys, AAt(msg, 2), [1, 0]);
    assert AAt(msg, 2).parts[1 := Child(BAt(msg, 1))] == AAt(msg, 3).parts;
    Inside(sys, AAt(msg, 3), [1, 1]);
    assert AAt(msg, 3).parts[1 := Child(BAt(msg, 2))] == AAt(msg, 4).parts;
    Inside(sys, AAt(msg, 4), [1, 1]);
    assert AAt(msg, 4).parts[1 := Child(BAt(msg, 3))] + [Owed] == AAt(msg, 5).parts;
    assert AAt(msg, 5).parts[2 := Gone] == AAt(msg, 6).parts;
    SumAtLeast(TellerOf, AAt(msg, 5).parts, 0);
  }

  function EarlyRun(msg: RuleMsg, k: nat): Run
  {
    var ended := if k <= 3 then [] else [EndOfB(msg)];
    if k <= 5 then Run(Ctx(A, 0, 0, [Child(AAt(msg, k))]), 0, ended)
    else if k == 6 then Run(Ctx(A, 0, 0, [Child(AAt(msg, 6)), Owed]), 0, ended)
    else Run(Ctx(A, -1, 1, [Child(AAt(msg, 6)), Gone]), 1, ended)
  }

  /** The steps of the early schedule after `a` has been activated. */
  lemma EarlyStep(msg: RuleMsg, k: nat)
    requires k <= 6
    ensures var next := ExecRun(Diamond(), EarlyRun(msg, k), EarlySchedule()[k + 1]);
            next.Some? && next.value.0 == EarlyRun(msg, k + 1)
  {
    var sys, path := Diamond(), EarlySchedule()[k + 1];
    var run := EarlyRun(msg, k);
    if k < 6 {
      StepsOfA(msg);
      assert path[1..] == [[0], [1], [1, 0], [1, 1], [1, 1], [2]][k];
      Inside(sys, run.root, path);
      assert run.root.parts[0 := Child(AAt(msg, k + 1))] == [Child(AAt(msg, k + 1))];
    } else {
      assert run.root.parts[1 := Gone] == EarlyRun(msg, 7).root.parts;
    }
  }

  lemma {:induction false} EarlyFrom(msg: RuleMsg, k: nat)
    requires k <= 7
    ensures ExecAll(Diamond(), EarlyRun(msg, k), EarlySchedule()[k + 1..]) == Some(EarlyRun(msg, 7))
    decreases 7 - k
  {
    var rest := EarlySchedule()[k + 1..];
    if k == 7 {
    } else {
      EarlyStep(msg, k);
      EarlyFrom(msg, k + 1);
      assert rest[0] == EarlySchedule()[k + 1] && rest[1..] == EarlySchedule()[k + 2..];
    }
  }

  lemma EarlyStart(msg: RuleMsg)
    ensures ExecRun(Diamond(), Start(A, msg), [0]) == Some((EarlyRun(msg, 0), false))
  {
    DiamondPlans();
    assert Activate(Diamond(), A, msg) == Child(AAt(msg, 0));
    assert Start(A, msg).root.parts[0 := Child(AAt(msg, 0))] == [Child(AAt(msg, 0))];
  }

  /** In the end state the loop of `a` is still going, and it can go on. */
  lemma EarlyLeftover(msg: RuleMsg)
    ensures !Quiet(EarlyRun(msg, 7).root) && ExecCtx(Diamond(), EarlyRun(msg, 7).root, [0, 0]).Some?
  {
    var root := EarlyRun(msg, 7).root;
    assert ExecCtx(Diamond(), AAt(msg, 6), [0]).Some?;
    assert [0, 0][1..] == [0];
    assert !Quiet(AAt(msg, 6)) by {
      assert AAt(msg, 6).parts[0] in AAt(msg, 6).parts;
      assert !QuietPart(Left(msg));
    }
    assert root.parts[0] in root.parts && !QuietPart(root.parts[0]);
  }

  /**
  The first child of `a` finishes before the loop of `a` has counted the second: the counter of `a`
  reaches zero, the run completes, and `c` has not even been submitted.
  */
  lemma EarlyCompletion(msg: RuleMsg)
    ensures var run := ExecAll(Diamond(), Start(A, msg), EarlySchedule());
            && run.Some? && run.value.fired == 1 && run.value.ended == [EndOfB(msg)]
            && !Quiet(run.value.root) && ExecCtx(Diamond(), run.value.root, [0, 0]).Some?
  {
    EarlyStart(msg);
    EarlyFrom(msg, 0);
    assert EarlySchedule()[0] == [0];
    assert ExecAll(Diamond(), Start(A, msg), EarlySchedule()) == Some(EarlyRun(msg, 7));
    EarlyLeftover(msg);
  }
}
