/**
The evaluator is exact: every result it allows, in every order of its ends, is what some orderly run makes.
A run is driven in three stages. First everything is activated but nothing ends and nobody reports; then
the end callbacks run in the wanted order; then the counters run down.
*/
module EngineReach {
  import opened Messages
  import opened Sums
  import opened Engine
  import opened EngineSafety
  import opened EngineRefinement
  import opened EngineWalk
  import opened EngineTermination

  // ---------- silent schedules ----------

  /** The context after steps that end nothing, report nothing and are not premature. */
  function Silent(sys: System, c: Ctx, schedule: seq<seq<nat>>): Option<Ctx>
    decreases |schedule|
  {
    if schedule == [] then Some(c) else
    if Premature(c, schedule[0]) then None else
    match ExecCtx(sys, c, schedule[0])
    case Some((c', Tau)) => Silent(sys, c', schedule[1..])
    case _ => None
  }

  lemma {:induction false} SilentConcat(sys: System, c: Ctx, a: seq<seq<nat>>, b: seq<seq<nat>>)
    requires Silent(sys, c, a).Some?
    ensures Silent(sys, c, a + b) == Silent(sys, Silent(sys, c, a).value, b)
    decreases |a|
  {
    if a == [] {
      assert a + b == b;
    } else {
      var next := ExecCtx(sys, c, a[0]).value.0;
      SilentConcat(sys, next, a[1..], b);
      var longer := a + b;
      assert longer[0] == a[0] && longer[1..] == a[1..] + b;
      assert Silent(sys, c, longer) == Silent(sys, next, longer[1..]);
    }
  }

  /** The same steps one level further down. */
  function Under(i: nat, schedule: seq<seq<nat>>): (r: seq<seq<nat>>)
    ensures |r| == |schedule|
  {
    if schedule == [] then [] else [[i] + schedule[0]] + Under(i, schedule[1..])
  }

  lemma {:induction false} SilentInside(sys: System, c: Ctx, i: nat, schedule: seq<seq<nat>>)
    requires i < |c.parts| && c.parts[i].Child? && Silent(sys, c.parts[i].ctx, schedule).Some?
    ensures Silent(sys, c, Under(i, schedule)) ==
            Some(c.(parts := c.parts[i := Child(Silent(sys, c.parts[i].ctx, schedule).value)]))
    decreases |schedule|
  {
    if schedule == [] {
      assert c.parts[i := c.parts[i]] == c.parts;
    } else {
      var d' := ExecCtx(sys, c.parts[i].ctx, schedule[0]).value.0;
      var path := [i] + schedule[0];
      assert path[1..] == schedule[0];
      var c' := c.(parts := c.parts[i := Child(d')]);
      assert ExecCtx(sys, c, path) == Some((c', Tau));
      SilentInside(sys, c', i, schedule[1..]);
      var d := Silent(sys, d', schedule[1..]).value;
      assert c'.parts[i := Child(d)] == c.parts[i := Child(d)];
      assert Under(i, schedule)[0] == path && Under(i, schedule)[1..] == Under(i, schedule[1..]);
    }
  }

  /** A run of a sub-chain up to its completion, seen from the flow node. */
  lemma {:induction false} SilentFlow(sys: System, c: Ctx, i: nat, schedule: seq<seq<nat>>)
    requires TellsOnce(sys) && i < |c.parts| && c.parts[i].SubChain? && c.parts[i].run.fired == 0
    requires InvRun(c.parts[i].run) && Orderly(sys, c.parts[i].run, schedule)
    requires ExecAll(sys, c.parts[i].run, schedule).Some? && ExecAll(sys, c.parts[i].run, schedule).value.fired > 0
    ensures var run' := ExecAll(sys, c.parts[i].run, schedule).value;
            Silent(sys, c, Under(i, schedule)) ==
            Some(c.(parts := c.parts[i := SubChain(run', c.parts[i].msg)] +
                             [FlowTell(sys, c.self, c.parts[i].msg, run'.ended)]))
    decreases |schedule|
  {
    var SubChain(run, msg) := c.parts[i];
    var path := [i] + schedule[0];
    assert path[1..] == schedule[0];
    assert Under(i, schedule)[0] == path && Under(i, schedule)[1..] == Under(i, schedule[1..]);
    var (run', fires) := ExecRun(sys, run, schedule[0]).value;
    StepRunInv(sys, run, schedule[0]);
    if fires {
      OverAfterFiring(sys, run', schedule[1..]);
    } else {
      var c' := c.(parts := c.parts[i := SubChain(run', msg)]);
      SilentFlow(sys, c', i, schedule[1..]);
      var last := ExecAll(sys, run', schedule[1..]).value;
      assert c'.parts[i := SubChain(last, msg)] == c.parts[i := SubChain(last, msg)];
    }
  }

  lemma OverAfterFiring(sys: System, run: Run, schedule: seq<seq<nat>>)
    requires InvRun(run) && run.fired > 0 && ExecAll(sys, run, schedule).Some?
    ensures schedule == []
  {
    ReportedFinished(run.root);
    FinishedQuiet(run.root);
    if schedule != [] {
      QuietStops(sys, run.root, schedule[0]);
    }
  }

  // ---------- stage one: everything but the ends ----------

  /** Nothing is left under `c` but ends, decrements and finished sub-chains. */
  ghost predicate Drained(c: Ctx)
    decreases c
  {
    forall p :: p in c.parts ==> DrainedPart(p)
  }

  ghost predicate DrainedPart(p: Part)
    decreases p
  {
    match p
    case Gone => true
    case Owed => true
    case Ending(_, _, _) => true
    case Child(d) => Drained(d)
    case SubChain(run, _) => run.fired > 0 && Quiet(run.root)
    case _ => false
  }

  /** All parts but one are drained. */
  ghost predicate DrainedBut(c: Ctx, i: nat)
  {
    forall j :: 0 <= j < |c.parts| && j != i ==> DrainedPart(c.parts[j])
  }

  lemma AllDrained(c: Ctx, i: nat)
    requires DrainedBut(c, i) && i < |c.parts| && DrainedPart(c.parts[i])
    ensures Drained(c)
  {
    forall p | p in c.parts
      ensures DrainedPart(p)
    {
      var j :| 0 <= j < |c.parts| && c.parts[j] == p;
    }
  }

  /** Another part with the same share. */
  lemma SwapPart(sys: System, c: Ctx, i: nat, p: Part, shares: seq<multiset<End>>)
    requires Shared(sys, c, shares) && i < |c.parts| && YieldsPart(sys, c.self, p, shares[i])
    ensures Shared(sys, c.(parts := c.parts[i := p]), shares)
  {
  }

  lemma ActivateForward(sys: System, node: NodeRef, msg: RuleMsg, self: NodeRef, ends: multiset<End>)
    requires Eval(sys, node, msg, ends)
    ensures YieldsPart(sys, self, Activate(sys, node, msg), ends)
  {
    match sys.flow(node)
    case None =>
      if sys.behave(node, msg).Tells? {
        var Tells(out, err, relations) := sys.behave(node, msg);
        NewCtxYields(sys, node, Loop(out, err, Plan(sys, node, relations)), ends);
      }
    case Some(chainId) =>
      match sys.first(chainId)
      case None =>
        NewCtxYields(sys, node, Loop(msg, NotFound(chainId), Plan(sys, node, Given([FAILURE]))), ends);
      case Some(f) =>
        var order: seq<End> :|
          Eval(sys, f, msg, multiset(order)) &&
          EvalActions(sys, node, WrapEnds(sys.encode, msg, order), None, Plan(sys, node, Given([SUCCESS])), ends);
        NewCtxYields(sys, f, Pending(f, msg), multiset(order));
        assert [] + order == order;
        NewCtxYields(sys, node, SubChain(Start(f, msg), msg), ends);
  }

  /** One turn of a loop splits its share between the new part and the rest of the loop. */
  lemma LoopForward(sys: System, c: Ctx, i: nat, ends: multiset<End>)
    requires i < |c.parts| && c.parts[i].Loop? && c.parts[i].actions != [] && Yields(sys, c, ends)
    ensures Yields(sys, ExecLoop(c, i), ends)
  {
    var Loop(msg, err, actions) := c.parts[i];
    var shares :| Shared(sys, c, shares) && ends == Union(shares);
    assert YieldsPart(sys, c.self, c.parts[i], shares[i]);
    var here := FirstShare(sys, c.self, msg, err, actions, shares[i]);
    LoopShares(sys, c, i, shares, here);
    UnionSplit(shares, i, here);
  }

  lemma LoopShares(sys: System, c: Ctx, i: nat, shares: seq<multiset<End>>, here: multiset<End>)
    requires i < |c.parts| && c.parts[i].Loop? && c.parts[i].actions != [] && Shared(sys, c, shares)
    requires var Loop(msg, err, actions) := c.parts[i];
             && EvalAction(sys, c.self, msg, err, actions[0], here)
             && EvalActions(sys, c.self, msg, err, actions[1..], shares[i] - here)
    ensures Shared(sys, ExecLoop(c, i), shares[i := shares[i] - here] + [here])
  {
    var Loop(msg, err, actions) := c.parts[i];
    var c', shares' := ExecLoop(c, i), shares[i := shares[i] - here] + [here];
    assert |actions| == 1 ==> actions[1..] == [];
    forall j | 0 <= j < |c'.parts|
      ensures YieldsPart(sys, c'.self, c'.parts[j], shares'[j])
    {
      if j < |c.parts| && j != i {
        assert YieldsPart(sys, c.self, c.parts[j], shares[j]);
      }
    }
  }

  // ---------- stage two: the ends, in any order ----------

  lemma {:induction false} UnionHas(shares: seq<multiset<End>>, e: End) returns (i: nat)
    requires e in Union(shares)
    ensures i < |shares| && e in shares[i]
  {
    if e in shares[0] {
      i := 0;
    } else {
      var j := UnionHas(shares[1..], e);
      i := j + 1;
    }
  }

  lemma UnionTake(shares: seq<multiset<End>>, i: nat, e: End)
    requires i < |shares| && e in shares[i]
    ensures Union(shares[i := shares[i] - multiset{e}]) == Union(shares) - multiset{e}
  {
    var one := multiset{e};
    var left := shares[i := shares[i] - one];
    UnionSplit(shares, i, one);
    UnionAppend(left, one);
  }

  /** Any end that a drained context still has to make can be made next. */
  lemma {:induction false} FireOne(sys: System, c: Ctx, e: End, ends: multiset<End>) returns (path: seq<nat>)
    requires Drained(c) && Yields(sys, c, ends) && e in ends
    ensures ExecCtx(sys, c, path).Some? && !Premature(c, path) && ExecCtx(sys, c, path).value.1 == Ended(e)
    ensures Drained(ExecCtx(sys, c, path).value.0) && Yields(sys, ExecCtx(sys, c, path).value.0, ends - multiset{e})
    decreases c
  {
    var shares :| Shared(sys, c, shares) && ends == Union(shares);
    var i := UnionHas(shares, e);
    var p := c.parts[i];
    assert p in c.parts && DrainedPart(p) && YieldsPart(sys, c.self, p, shares[i]);
    if p.Child? {
      var deeper := FireOne(sys, p.ctx, e, shares[i]);
      path := [i] + deeper;
      FireInside(sys, c, i, deeper, e);
      FireShares(sys, c, i, Child(ExecCtx(sys, p.ctx, deeper).value.0), shares, e);
    } else {
      path := [i];
      assert shares[i] == multiset{e};
      FireShares(sys, c, i, Owed, shares, e);
    }
  }

  /** An end under a child, seen from its parent. */
  lemma FireInside(sys: System, c: Ctx, i: nat, deeper: seq<nat>, e: End)
    requires i < |c.parts| && c.parts[i].Child? && !Premature(c.parts[i].ctx, deeper)
    requires ExecCtx(sys, c.parts[i].ctx, deeper).Some? && ExecCtx(sys, c.parts[i].ctx, deeper).value.1 == Ended(e)
    ensures var d' := ExecCtx(sys, c.parts[i].ctx, deeper).value.0;
            ExecCtx(sys, c, [i] + deeper) == Some((c.(parts := c.parts[i := Child(d')]), Ended(e)))
    ensures !Premature(c, [i] + deeper)
  {
    assert ([i] + deeper)[1..] == deeper;
  }

  lemma FireShares(sys: System, c: Ctx, i: nat, p': Part, shares: seq<multiset<End>>, e: End)
    requires Drained(c) && Shared(sys, c, shares) && i < |c.parts| && e in shares[i]
    requires DrainedPart(p') && YieldsPart(sys, c.self, p', shares[i] - multiset{e})
    ensures Drained(c.(parts := c.parts[i := p']))
    ensures Yields(sys, c.(parts := c.parts[i := p']), Union(shares) - multiset{e})
  {
    var c', shares' := c.(parts := c.parts[i := p']), shares[i := shares[i] - multiset{e}];
    assert forall j :: 0 <= j < |c.parts| ==> c.parts[j] in c.parts;
    AllDrained(c', i);
    forall j | 0 <= j < |c'.parts|
      ensures YieldsPart(sys, c'.self, c'.parts[j], shares'[j])
    {
      if j != i {
        assert YieldsPart(sys, c.self, c.parts[j], shares[j]);
      }
    }
    assert Shared(sys, c', shares');
    UnionTake(shares, i, e);
  }

  lemma FirstOf(order: seq<End>)
    requires order != []
    ensures order[0] in multiset(order) && multiset(order) - multiset{order[0]} == multiset(order[1..])
  {
    assert order == [order[0]] + order[1..];
  }

  lemma FireFirst(sys: System, run: Run, order: seq<End>) returns (path: seq<nat>)
    requires Drained(run.root) && Yields(sys, run.root, multiset(order)) && order != []
    ensures ExecRun(sys, run, path).Some? && !Premature(run.root, path)
    ensures var run' := ExecRun(sys, run, path).value.0;
            && run'.ended == run.ended + [order[0]] && run'.fired == run.fired
            && Drained(run'.root) && Yields(sys, run'.root, multiset(order[1..]))
  {
    FirstOf(order);
    path := FireOne(sys, run.root, order[0], multiset(order));
  }

  /** One step and then a schedule from where it leads. */
  lemma StepThen(sys: System, run: Run, path: seq<nat>, later: seq<seq<nat>>)
    requires ExecRun(sys, run, path).Some? && !Premature(run.root, path)
    requires Orderly(sys, ExecRun(sys, run, path).value.0, later)
    ensures Orderly(sys, run, [path] + later)
    ensures ExecAll(sys, run, [path] + later) == ExecAll(sys, ExecRun(sys, run, path).value.0, later)
  {
    assert ([path] + later)[1..] == later;
  }

  lemma {:induction false} FireAll(sys: System, run: Run, order: seq<End>) returns (schedule: seq<seq<nat>>)
    requires Drained(run.root) && Yields(sys, run.root, multiset(order))
    ensures Orderly(sys, run, schedule) && ExecAll(sys, run, schedule).Some?
    ensures var run' := ExecAll(sys, run, schedule).value;
            && run'.ended == run.ended + order && run'.fired == run.fired
            && Drained(run'.root) && Yields(sys, run'.root, multiset{})
    decreases |order|
  {
    if order == [] {
      schedule := [];
      assert multiset(order) == multiset{} && run.ended + order == run.ended;
    } else {
      var path := FireFirst(sys, run, order);
      var run' := ExecRun(sys, run, path).value.0;
      var later := FireAll(sys, run', order[1..]);
      StepThen(sys, run, path, later);
      schedule := [path] + later;
      assert run.ended + [order[0]] + order[1..] == run.ended + order;
    }
  }

  // ---------- stage three: the counters run down ----------

  /** Nothing is left but decrements. */
  ghost predicate Settling(c: Ctx)
    decreases c
  {
    forall p :: p in c.parts ==> SettlingPart(p)
  }

  ghost predicate SettlingPart(p: Part)
    decreases p
  {
    match p
    case Child(d) => Settling(d)
    case Ending(_, _, _) => false
    case _ => DrainedPart(p)
  }

  lemma {:induction false} UnionNone(shares: seq<multiset<End>>, i: nat)
    requires Union(shares) == multiset{} && i < |shares|
    ensures shares[i] == multiset{}
  {
    if i > 0 {
      assert Union(shares[1..]) <= Union(shares);
      UnionNone(shares[1..], i - 1);
    } else {
      assert shares[0] <= Union(shares);
    }
  }

  lemma {:induction false} DrainedSettles(sys: System, c: Ctx)
    requires Drained(c) && Yields(sys, c, multiset{})
    ensures Settling(c)
    decreases c
  {
    var shares :| Shared(sys, c, shares) && multiset{} == Union(shares);
    forall p | p in c.parts
      ensures SettlingPart(p)
    {
      var i :| 0 <= i < |c.parts| && c.parts[i] == p;
      UnionNone(shares, i);
      assert YieldsPart(sys, c.self, p, multiset{}) && DrainedPart(p);
      if p.Child? {
        DrainedSettles(sys, p.ctx);
      }
    }
  }

  lemma SettlingChanged(c: Ctx, i: nat, p: Part, more: seq<Part>)
    requires Settling(c) && i < |c.parts| && SettlingPart(p) && forall q :: q in more ==> SettlingPart(q)
    ensures Settling(c.(parts := c.parts[i := p] + more))
  {
    var parts := c.parts[i := p] + more;
    forall q | q in parts
      ensures SettlingPart(q)
    {
      assert q in c.parts || q == p || q in more;
    }
  }

  /** A step of a settling context ends nothing and brings it closer to rest. */
  lemma {:induction false} SettleStep(sys: System, rank: NodeRef -> nat, c: Ctx, path: seq<nat>)
    requires TellsOnce(sys) && Ranked(sys, rank) && Inv(c) && Settling(c)
    requires ExecCtx(sys, c, path).Some? && !Premature(c, path)
    ensures !ExecCtx(sys, c, path).value.1.Ended? && Settling(ExecCtx(sys, c, path).value.0)
    ensures CtxWeight(sys, rank, 0, ExecCtx(sys, c, path).value.0) < CtxWeight(sys, rank, 0, c)
    decreases |path|
  {
    var i := path[0];
    var p := c.parts[i];
    assert p in c.parts && InvPart(p) && SettlingPart(p);
    var c' := ExecCtx(sys, c, path).value.0;
    if p.Child? {
      SettleStep(sys, rank, p.ctx, path[1..]);
      StepInv(sys, p.ctx, path[1..]);
      var (d', event) := ExecCtx(sys, p.ctx, path[1..]).value;
      var more := if event == Report then [Owed] else [];
      assert c'.parts == c.parts[i := Child(d')] + more;
      Changed(sys, rank, 0, c, c', i, Child(d'), more);
      OnePart(sys, rank, 0, c.self, Owed);
      SettlingChanged(c, i, Child(d'), more);
    } else if p.SubChain? {
      QuietStops(sys, p.run.root, path[1..]);
    } else {
      assert c'.parts == c.parts[i := Gone] + [];
      Changed(sys, rank, 0, c, c', i, Gone, []);
      SettlingChanged(c, i, Gone, []);
    }
  }

  lemma {:induction false} RunDown(sys: System, rank: NodeRef -> nat, run: Run) returns (schedule: seq<seq<nat>>)
    requires TellsOnce(sys) && Ranked(sys, rank) && InvRun(run) && Settling(run.root)
    ensures Orderly(sys, run, schedule) && ExecAll(sys, run, schedule).Some?
    ensures var run' := ExecAll(sys, run, schedule).value; run'.fired == 1 && run'.ended == run.ended
    decreases CtxWeight(sys, rank, 0, run.root)
  {
    if run.fired > 0 {
      schedule := [];
    } else {
      var path := Progress(sys, run.root);
      SettleStep(sys, rank, run.root, path);
      StepRunInv(sys, run, path);
      var run' := ExecRun(sys, run, path).value.0;
      var later := RunDown(sys, rank, run');
      StepThen(sys, run, path, later);
      schedule := [path] + later;
    }
  }

  // ---------- the three stages together ----------

  lemma {:induction false} OrderlyConcat(sys: System, run: Run, a: seq<seq<nat>>, b: seq<seq<nat>>)
    requires Orderly(sys, run, a) && ExecAll(sys, run, a).Some? && Orderly(sys, ExecAll(sys, run, a).value, b)
    ensures Orderly(sys, run, a + b) && ExecAll(sys, run, a + b) == ExecAll(sys, ExecAll(sys, run, a).value, b)
    decreases |a|
  {
    if a == [] {
      assert a + b == b;
    } else {
      OrderlyConcat(sys, ExecRun(sys, run, a[0]).value.0, a[1..], b);
      assert (a + b)[0] == a[0] && (a + b)[1..] == a[1..] + b;
    }
  }

  lemma {:induction false} SilentRun(sys: System, run: Run, schedule: seq<seq<nat>>)
    requires Silent(sys, run.root, schedule).Some?
    ensures Orderly(sys, run, schedule)
    ensures ExecAll(sys, run, schedule) == Some(run.(root := Silent(sys, run.root, schedule).value))
    decreases |schedule|
  {
    if schedule == [] {
    } else {
      SilentRun(sys, run.(root := ExecCtx(sys, run.root, schedule[0]).value.0), schedule[1..]);
    }
  }

  /** A submitted task is activated, and everything under it drained. */
  lemma {:induction false} DrainPending(sys: System, rank: NodeRef -> nat, c: Ctx, i: nat, ends: multiset<End>)
    returns (schedule: seq<seq<nat>>, p: Part)
    requires TellsOnce(sys) && Ranked(sys, rank) && i < |c.parts| && c.parts[i].Pending? && Yields(sys, c, ends)
    ensures Silent(sys, c, schedule) == Some(c.(parts := c.parts[i := p]))
    ensures DrainedPart(p) && Yields(sys, c.(parts := c.parts[i := p]), ends)
    decreases rank(c.parts[i].node), 2, 0
  {
    var Pending(node, msg) := c.parts[i];
    var shares :| Shared(sys, c, shares) && ends == Union(shares);
    assert YieldsPart(sys, c.self, c.parts[i], shares[i]);
    ActivateForward(sys, node, msg, c.self, shares[i]);
    p := Activate(sys, node, msg);
    var c1 := c.(parts := c.parts[i := p]);
    schedule := [[i]];
    assert Silent(sys, c, [[i]]) == Some(c1);
    if p.Child? {
      var inner, d := DrainNew(sys, rank, node, msg, shares[i]);
      SilentInside(sys, c1, i, inner);
      SilentConcat(sys, c, [[i]], Under(i, inner));
      schedule := [[i]] + Under(i, inner);
      p := Child(d);
      assert c1.parts[i := p] == c.parts[i := p];
    }
    SwapPart(sys, c, i, p, shares);
  }

  /** The order that a flow node is going to see. */
  lemma FlowChoice(sys: System, node: NodeRef, f: NodeRef, msg: RuleMsg, ends: multiset<End>) returns (order: seq<End>)
    requires Yields(sys, NewCtx(node, SubChain(Start(f, msg), msg)), ends)
    ensures Eval(sys, f, msg, multiset(order))
    ensures EvalActions(sys, node, WrapEnds(sys.encode, msg, order), None, Plan(sys, node, Given([SUCCESS])), ends)
  {
    NewCtxYields(sys, node, SubChain(Start(f, msg), msg), ends);
    order :|
      Yields(sys, Start(f, msg).root, multiset(order)) &&
      EvalActions(sys, node, WrapEnds(sys.encode, msg, [] + order), None, Plan(sys, node, Given([SUCCESS])), ends);
    NewCtxYields(sys, f, Pending(f, msg), multiset(order));
    assert [] + order == order;
  }

  /** The context of a node that has just been activated. */
  lemma {:induction false} DrainNew(sys: System, rank: NodeRef -> nat, node: NodeRef, msg: RuleMsg, ends: multiset<End>)
    returns (schedule: seq<seq<nat>>, d: Ctx)
    requires TellsOnce(sys) && Ranked(sys, rank)
    requires Activate(sys, node, msg).Child? && Yields(sys, Activate(sys, node, msg).ctx, ends)
    ensures Silent(sys, Activate(sys, node, msg).ctx, schedule) == Some(d) && Drained(d) && Yields(sys, d, ends)
    decreases rank(node), 1, 1
  {
    var c := Activate(sys, node, msg).ctx;
    ActivatedBelow(sys, rank, node, msg);
    if c.parts[0].Loop? {
      schedule, d := DrainLoop(sys, rank, c, 0, ends);
    } else {
      var f := sys.first(sys.flow(node).value).value;
      assert c == NewCtx(node, SubChain(Start(f, msg), msg));
      var order := FlowChoice(sys, node, f, msg, ends);
      var sub := Reach(sys, rank, f, msg, order);
      schedule, d := DrainFlow(sys, rank, node, f, msg, order, sub, ends);
    }
  }

  lemma ActivatedBelow(sys: System, rank: NodeRef -> nat, node: NodeRef, msg: RuleMsg)
    requires TellsOnce(sys) && Ranked(sys, rank) && Activate(sys, node, msg).Child?
    ensures var c := Activate(sys, node, msg).ctx;
            c.self == node && |c.parts| == 1 &&
            (c.parts[0].Loop? ==> c.parts[0].actions != [] && Below(rank, rank(node), c.parts[0].actions))
  {
    match sys.flow(node)
    case None => PlanBelow(sys, rank, node, sys.behave(node, msg).relations);
    case Some(chainId) =>
      PlanBelow(sys, rank, node, Given([FAILURE]));
      PlanOneBalanced(sys, node, FAILURE);
  }

  /** A loop runs to its end; each child is drained as soon as it is submitted. */
  lemma {:induction false} DrainLoop(sys: System, rank: NodeRef -> nat, c: Ctx, i: nat, ends: multiset<End>)
    returns (schedule: seq<seq<nat>>, d: Ctx)
    requires TellsOnce(sys) && Ranked(sys, rank) && i < |c.parts| && DrainedBut(c, i) && Yields(sys, c, ends)
    requires c.parts[i].Loop? && c.parts[i].actions != [] && Below(rank, rank(c.self), c.parts[i].actions)
    ensures Silent(sys, c, schedule) == Some(d) && Drained(d) && Yields(sys, d, ends)
    decreases rank(c.self), 0, |c.parts[i].actions|
  {
    var actions, n := c.parts[i].actions, |c.parts|;
    var c1 := ExecLoop(c, i);
    LoopForward(sys, c, i, ends);
    assert Silent(sys, c, [[i]]) == Some(c1);
    schedule := [[i]];
    var c2 := c1;
    if actions[0].Spawn? {
      var inner, p := DrainPending(sys, rank, c1, n, ends);
      SilentConcat(sys, c, [[i]], inner);
      schedule := [[i]] + inner;
      c2 := c1.(parts := c1.parts[n := p]);
    }
    if |actions| == 1 {
      AllDrained(c2, i);
      d := c2;
    } else {
      var later;
      later, d := DrainLoop(sys, rank, c2, i, ends);
      SilentConcat(sys, c, schedule, later);
      schedule := schedule + later;
    }
  }

  /** The sub-chain runs to its completion, and then the flow node tells. */
  lemma {:induction false} DrainFlow(sys: System, rank: NodeRef -> nat, node: NodeRef, f: NodeRef, msg: RuleMsg,
                                     order: seq<End>, sub: seq<seq<nat>>, ends: multiset<End>)
    returns (schedule: seq<seq<nat>>, d: Ctx)
    requires TellsOnce(sys) && Ranked(sys, rank) && Orderly(sys, Start(f, msg), sub)
    requires ExecAll(sys, Start(f, msg), sub).Some?
    requires var run := ExecAll(sys, Start(f, msg), sub).value; run.fired == 1 && run.ended == order
    requires EvalActions(sys, node, WrapEnds(sys.encode, msg, order), None, Plan(sys, node, Given([SUCCESS])), ends)
    ensures Silent(sys, NewCtx(node, SubChain(Start(f, msg), msg)), schedule) == Some(d)
    ensures Drained(d) && Yields(sys, d, ends)
    decreases rank(node), 1, 0
  {
    var c, run := NewCtx(node, SubChain(Start(f, msg), msg)), ExecAll(sys, Start(f, msg), sub).value;
    StartInv(f, msg);
    RunInv(sys, Start(f, msg), sub);
    ReportedFinished(run.root);
    FinishedQuiet(run.root);
    SilentFlow(sys, c, 0, sub);
    var c1 := c.(parts := [SubChain(run, msg), FlowTell(sys, node, msg, order)]);
    assert c.parts[0 := SubChain(run, msg)] + [FlowTell(sys, node, msg, order)] == c1.parts;
    FlowShares(sys, c1, run, msg, order, ends);
    PlanOneBalanced(sys, node, SUCCESS);
    PlanBelow(sys, rank, node, Given([SUCCESS]));
    var later;
    later, d := DrainLoop(sys, rank, c1, 1, ends);
    SilentConcat(sys, c, Under(0, sub), later);
    schedule := Under(0, sub) + later;
  }

  lemma FlowShares(sys: System, c: Ctx, run: Run, msg: RuleMsg, order: seq<End>, ends: multiset<End>)
    requires c.parts == [SubChain(run, msg), FlowTell(sys, c.self, msg, order)] && run.fired > 0
    requires EvalActions(sys, c.self, WrapEnds(sys.encode, msg, order), None, Plan(sys, c.self, Given([SUCCESS])), ends)
    ensures Yields(sys, c, ends)
  {
    var none: multiset<End> := multiset{};
    assert YieldsPart(sys, c.self, c.parts[0], none) && YieldsPart(sys, c.self, c.parts[1], ends);
    assert Shared(sys, c, [none, ends]);
    UnionAppend([none], ends);
    assert [none] + [ends] == [none, ends];
    UnionEmpty([none]);
  }

  /**
  Every result of the evaluator, in every order of its ends, is exactly what the end callbacks of some
  orderly completing run are, in that order.
  */
  lemma {:induction false} Reach(sys: System, rank: NodeRef -> nat, first: NodeRef, msg: RuleMsg, order: seq<End>)
    returns (schedule: seq<seq<nat>>)
    requires TellsOnce(sys) && Ranked(sys, rank) && Eval(sys, first, msg, multiset(order))
    ensures Orderly(sys, Start(first, msg), schedule) && ExecAll(sys, Start(first, msg), schedule).Some?
    ensures var run := ExecAll(sys, Start(first, msg), schedule).value; run.fired == 1 && run.ended == order
    decreases rank(first), 3, 0
  {
    var start := Start(first, msg);
    NewCtxYields(sys, first, Pending(first, msg), multiset(order));
    var silent, p := DrainPending(sys, rank, start.root, 0, multiset(order));
    SilentRun(sys, start, silent);
    var run1 := start.(root := start.root.(parts := start.root.parts[0 := p]));
    AllDrained(run1.root, 0);
    var ends := FireAll(sys, run1, order);
    OrderlyConcat(sys, start, silent, ends);
    var run2 := ExecAll(sys, run1, ends).value;
    StartInv(first, msg);
    RunInv(sys, start, silent + ends);
    DrainedSettles(sys, run2.root);
    var down := RunDown(sys, rank, run2);
    OrderlyConcat(sys, start, silent + ends, down);
    schedule := silent + ends + down;
    assert [] + order == order;
  }
}
