/** Concurrent runs refine a big-step evaluator, which in turn is a plain recursive walk. */
module EngineRefinement {
  import opened Messages
  import opened Sums
  import opened Engine
  import opened EngineSafety

  // ---------- the evaluator ----------

  /**
  `node` given `msg` can end with exactly the end callbacks in `ends`. The only choice is the
  order in which a flow node sees the ends of its sub-chain.
  */
  least predicate Eval(sys: System, node: NodeRef, msg: RuleMsg, ends: multiset<End>)
  {
    match sys.flow(node)
    case None =>
      (match sys.behave(node, msg)
       case Panics => ends == multiset{}
       case Tells(out, err, relations) => EvalActions(sys, node, out, err, Plan(sys, node, relations), ends))
    case Some(chainId) =>
      (match sys.first(chainId)
       case None => EvalActions(sys, node, msg, NotFound(chainId), Plan(sys, node, Given([FAILURE])), ends)
       case Some(f) =>
         exists order: seq<End> ::
           Eval(sys, f, msg, multiset(order)) &&
           EvalActions(sys, node, WrapEnds(sys.encode, msg, order), None,
                       Plan(sys, node, Given([SUCCESS])), ends))
  }

  least predicate EvalActions(sys: System, self: NodeRef, msg: RuleMsg, err: Option<string>,
                              actions: seq<Action>, ends: multiset<End>)
  {
    if actions == [] then ends == multiset{} else
    match actions[0]
    case Finish(relation) =>
      var e := End(self, msg, err, relation);
      e in ends && EvalActions(sys, self, msg, err, actions[1..], ends - multiset{e})
    case Spawn(target, _) =>
      exists here: multiset<End> :: here <= ends && Eval(sys, target, msg, here) &&
        EvalActions(sys, self, msg, err, actions[1..], ends - here)
  }

  // ---------- what a state can still end with ----------

  ghost predicate Yields(sys: System, c: Ctx, ends: multiset<End>)
    decreases c, 1
  {
    exists shares: seq<multiset<End>> :: Shared(sys, c, shares) && ends == Union(shares)
  }

  /** `shares[i]` is what part `i` of `c` will still end with. */
  ghost predicate Shared(sys: System, c: Ctx, shares: seq<multiset<End>>)
    decreases c, 0
  {
    |shares| == |c.parts| &&
    forall i :: 0 <= i < |c.parts| ==> YieldsPart(sys, c.self, c.parts[i], shares[i])
  }

  ghost predicate YieldsPart(sys: System, self: NodeRef, p: Part, ends: multiset<End>)
    decreases p
  {
    match p
    case Gone => ends == multiset{}
    case Owed => ends == multiset{}
    case Pending(node, msg) => Eval(sys, node, msg, ends)
    case Loop(msg, err, actions) => EvalActions(sys, self, msg, err, actions, ends)
    case Ending(msg, err, relation) => ends == multiset{End(self, msg, err, relation)}
    case Child(d) => Yields(sys, d, ends)
    case SubChain(run, msg) =>
      if run.fired > 0 then ends == multiset{} else
        exists rest: seq<End> ::
          Yields(sys, run.root, multiset(rest)) &&
          EvalActions(sys, self, WrapEnds(sys.encode, msg, run.ended + rest), None,
                      Plan(sys, self, Given([SUCCESS])), ends)
  }

  function EndsOf(event: Label): multiset<End>
  {
    if event.Ended? then multiset{event.end} else multiset{}
  }

  lemma NewCtxYields(sys: System, self: NodeRef, p: Part, ends: multiset<End>)
    ensures Yields(sys, NewCtx(self, p), ends) <==> YieldsPart(sys, self, p, ends)
  {
    var c := NewCtx(self, p);
    assert Union([ends]) == ends;
    if YieldsPart(sys, self, p, ends) {
      assert Shared(sys, c, [ends]);
    }
    if Yields(sys, c, ends) {
      var shares :| Shared(sys, c, shares) && ends == Union(shares);
      assert shares == [shares[0]];
      assert Union(shares) == shares[0];
    }
  }

  lemma {:induction false} FinishedYields(sys: System, c: Ctx)
    requires Finished(c)
    ensures Yields(sys, c, multiset{})
    decreases c
  {
    var shares := seq(|c.parts|, i => multiset{});
    forall i | 0 <= i < |c.parts|
      ensures YieldsPart(sys, c.self, c.parts[i], shares[i])
    {
      assert FinishedPart(c.parts[i]);
      match c.parts[i]
      case Child(d) => FinishedYields(sys, d);
      case _ =>
    }
    UnionEmpty(shares);
    assert Shared(sys, c, shares);
  }

  /** A change of part `i`, and possibly a new last part, seen backwards. */
  lemma Backwards(sys: System, c: Ctx, i: nat, c': Ctx, shares': seq<multiset<End>>,
                  added: multiset<End>, extra: multiset<End>)
    requires Local(c, i, c') && Shared(sys, c', shares')
    requires added == if |c'.parts| == |c.parts| then multiset{} else shares'[|c.parts|]
    requires YieldsPart(sys, c.self, c.parts[i], shares'[i] + extra + added)
    ensures Yields(sys, c, Union(shares') + extra)
  {
    var shares := shares'[..|c.parts|][i := shares'[i] + extra + added];
    forall j | 0 <= j < |c.parts|
      ensures YieldsPart(sys, c.self, c.parts[j], shares[j])
    {
      assert YieldsPart(sys, c'.self, c'.parts[j], shares'[j]);
    }
    assert Shared(sys, c, shares);
    UnionFold(shares', |c.parts|, i, added, extra);
  }

  lemma ActivateYields(sys: System, node: NodeRef, msg: RuleMsg, self: NodeRef, ends: multiset<End>)
    requires YieldsPart(sys, self, Activate(sys, node, msg), ends)
    ensures Eval(sys, node, msg, ends)
  {
    match sys.flow(node)
    case None =>
      if sys.behave(node, msg).Tells? {
        var Tells(out, err, relations) := sys.behave(node, msg);
        NewCtxYields(sys, node, Loop(out, err, Plan(sys, node, relations)), ends);
      }
    case Some(chainId) =>
      match sys.first(chainId)
      case None =>
        NewCtxYields(sys, node, Loop(msg, NotFound(chainId), Plan(sys, node, Given([FAILURE]))), ends);
      case Some(f) =>
        NewCtxYields(sys, node, SubChain(Start(f, msg), msg), ends);
        var rest: seq<End> :|
          Yields(sys, Start(f, msg).root, multiset(rest)) &&
          EvalActions(sys, node, WrapEnds(sys.encode, msg, [] + rest), None,
                      Plan(sys, node, Given([SUCCESS])), ends);
        NewCtxYields(sys, f, Pending(f, msg), multiset(rest));
        assert [] + rest == rest;
  }

  ghost predicate EvalAction(sys: System, self: NodeRef, msg: RuleMsg, err: Option<string>,
                             action: Action, ends: multiset<End>)
  {
    if action.Finish? then ends == multiset{End(self, msg, err, action.relation)}
    else Eval(sys, action.target, msg, ends)
  }

  /** The ends of the first action and those of the others make up those of a list of actions. */
  lemma EvalCons(sys: System, self: NodeRef, msg: RuleMsg, err: Option<string>, actions: seq<Action>,
                 here: multiset<End>, rest: multiset<End>)
    requires actions != [] && EvalActions(sys, self, msg, err, actions[1..], rest)
    requires EvalAction(sys, self, msg, err, actions[0], here)
    ensures EvalActions(sys, self, msg, err, actions, rest + here)
  {
    assert (rest + here) - here == rest;
    assert here <= rest + here;
  }

  lemma LoopYields(sys: System, c: Ctx, i: nat, ends: multiset<End>)
    requires i < |c.parts| && c.parts[i].Loop? && c.parts[i].actions != []
    requires Yields(sys, ExecLoop(c, i), ends)
    ensures Yields(sys, c, ends)
  {
    var Loop(msg, err, actions) := c.parts[i];
    var c' := ExecLoop(c, i);
    var shares' :| Shared(sys, c', shares') && ends == Union(shares');
    var n := |c.parts|;
    SharesOf(sys, c, i, c', shares', shares'[n]);
    EvalCons(sys, c.self, msg, err, actions, shares'[n], shares'[i]);
    assert shares'[i] + multiset{} + shares'[n] == shares'[i] + shares'[n];
    Backwards(sys, c, i, c', shares', shares'[n], multiset{});
    assert Union(shares') + multiset{} == ends;
  }

  /** A step changes the part it runs, adds at most one, and leaves every other part alone. */
  ghost predicate Local(c: Ctx, i: nat, c': Ctx)
  {
    && i < |c.parts| <= |c'.parts| <= |c.parts| + 1 && c'.self == c.self
    && forall j :: 0 <= j < |c.parts| && j != i ==> c'.parts[j] == c.parts[j]
  }

  lemma StepLocal(sys: System, c: Ctx, path: seq<nat>)
    requires ExecCtx(sys, c, path).Some?
    ensures path != [] && Local(c, path[0], ExecCtx(sys, c, path).value.0)
  {
  }

  /** What a state can end with, its predecessor can end with, counting the end of the step itself. */
  lemma {:induction false} StepYields(sys: System, c: Ctx, path: seq<nat>, ends: multiset<End>)
    requires TellsOnce(sys) && Inv(c) && ExecCtx(sys, c, path).Some? && !Premature(c, path)
    requires Yields(sys, ExecCtx(sys, c, path).value.0, ends)
    ensures Yields(sys, c, ends + EndsOf(ExecCtx(sys, c, path).value.1))
    decreases |path|, 2
  {
    StepLocal(sys, c, path);
    var i := path[0];
    assert c.parts[i] in c.parts && InvPart(c.parts[i]);
    if c.parts[i].Loop? {
      LoopYields(sys, c, i, ends);
      assert ends + multiset{} == ends;
    } else {
      var (c', event) := ExecCtx(sys, c, path).value;
      var shares' :| Shared(sys, c', shares') && ends == Union(shares');
      var added := if |c'.parts| == |c.parts| then multiset{} else shares'[|c.parts|];
      SharesOf(sys, c, i, c', shares', added);
      PartYields(sys, c, path, shares'[i], added);
      Backwards(sys, c, i, c', shares', added, EndsOf(event));
    }
  }

  lemma SharesOf(sys: System, c: Ctx, i: nat, c': Ctx, shares': seq<multiset<End>>, added: multiset<End>)
    requires Local(c, i, c') && Shared(sys, c', shares')
    requires added == if |c'.parts| == |c.parts| then multiset{} else shares'[|c.parts|]
    ensures YieldsPart(sys, c.self, c'.parts[i], shares'[i])
    ensures if |c'.parts| > |c.parts| then YieldsPart(sys, c.self, c'.parts[|c.parts|], added)
            else added == multiset{}
  {
  }

  /** The same for the part that made the step: `here` is its new share, `added` that of a new part. */
  lemma {:induction false} PartYields(sys: System, c: Ctx, path: seq<nat>, here: multiset<End>, added: multiset<End>)
    requires TellsOnce(sys) && ExecCtx(sys, c, path).Some? && !Premature(c, path)
    requires InvPart(c.parts[path[0]]) && !c.parts[path[0]].Loop?
    requires var c' := ExecCtx(sys, c, path).value.0;
             YieldsPart(sys, c.self, c'.parts[path[0]], here) &&
             (if |c'.parts| > |c.parts| then YieldsPart(sys, c.self, c'.parts[|c.parts|], added)
              else added == multiset{})
    ensures YieldsPart(sys, c.self, c.parts[path[0]], here + EndsOf(ExecCtx(sys, c, path).value.1) + added)
    decreases |path|, 1
  {
    var share := here + EndsOf(ExecCtx(sys, c, path).value.1) + added;
    var p := c.parts[path[0]];
    if p.Child? {
      StepYields(sys, p.ctx, path[1..], here);
      assert added == multiset{};
      assert share == here + EndsOf(ExecCtx(sys, p.ctx, path[1..]).value.1);
    } else if p.SubChain? {
      FlowYields(sys, c.self, p.run, p.msg, path[1..], here, added);
      assert share == here + added;
    } else {
      LeafYields(sys, c, path, here);
      assert share == here + EndsOf(ExecCtx(sys, c, path).value.1);
    }
  }

  lemma LeafYields(sys: System, c: Ctx, path: seq<nat>, here: multiset<End>)
    requires ExecCtx(sys, c, path).Some?
    requires c.parts[path[0]].Pending? || c.parts[path[0]].Ending? || c.parts[path[0]].Owed?
    requires YieldsPart(sys, c.self, ExecCtx(sys, c, path).value.0.parts[path[0]], here)
    ensures YieldsPart(sys, c.self, c.parts[path[0]], here + EndsOf(ExecCtx(sys, c, path).value.1))
  {
    match c.parts[path[0]]
    case Pending(node, msg) =>
      ActivateYields(sys, node, msg, c.self, here);
      assert here + multiset{} == here;
    case Ending(msg, err, relation) =>
      var e := End(c.self, msg, err, relation);
      assert here + multiset{e} == multiset{e};
    case Owed =>
  }

  lemma {:induction false} FlowYields(sys: System, self: NodeRef, run: Run, msg: RuleMsg, path: seq<nat>,
                                      here: multiset<End>, added: multiset<End>)
    requires TellsOnce(sys) && InvRun(run) && ExecRun(sys, run, path).Some? && !Premature(run.root, path)
    requires var (run', fires) := ExecRun(sys, run, path).value;
             YieldsPart(sys, self, SubChain(run', msg), here) &&
             (if fires then YieldsPart(sys, self, FlowTell(sys, self, msg, run'.ended), added)
              else added == multiset{})
    ensures YieldsPart(sys, self, SubChain(run, msg), here + added)
    decreases |path|, 4
  {
    var (run', fires) := ExecRun(sys, run, path).value;
    StepRunInv(sys, run, path);
    if fires {
      ReportedFinished(run'.root);
      FinishedYields(sys, run'.root);
      var rest := RunStepYields(sys, run, path, []);
      assert run'.ended + [] == run'.ended;
      assert here + added == added;
    } else if run.fired == 0 {
      var rest': seq<End> :|
        Yields(sys, run'.root, multiset(rest')) &&
        EvalActions(sys, self, WrapEnds(sys.encode, msg, run'.ended + rest'), None,
                    Plan(sys, self, Given([SUCCESS])), here);
      var rest := RunStepYields(sys, run, path, rest');
      assert here + added == here;
    }
  }

  function EndList(event: Label): seq<End>
  {
    if event.Ended? then [event.end] else []
  }

  lemma RunStepEnded(sys: System, run: Run, path: seq<nat>)
    requires ExecRun(sys, run, path).Some?
    ensures ExecCtx(sys, run.root, path).Some?
    ensures var run' := ExecRun(sys, run, path).value.0;
            var (root', event) := ExecCtx(sys, run.root, path).value;
            run'.root == root' && run'.ended == run.ended + EndList(event)
  {
  }

  lemma EndListEnds(event: Label, rest: seq<End>)
    ensures multiset(EndList(event) + rest) == multiset(rest) + EndsOf(event)
  {
  }

  lemma {:induction false} RunStepYields(sys: System, run: Run, path: seq<nat>, rest': seq<End>)
    returns (rest: seq<End>)
    requires TellsOnce(sys) && InvRun(run) && ExecRun(sys, run, path).Some? && !Premature(run.root, path)
    requires Yields(sys, ExecRun(sys, run, path).value.0.root, multiset(rest'))
    ensures run.ended + rest == ExecRun(sys, run, path).value.0.ended + rest'
    ensures Yields(sys, run.root, multiset(rest))
    decreases |path|, 3
  {
    RunStepEnded(sys, run, path);
    var (root', event) := ExecCtx(sys, run.root, path).value;
    StepYields(sys, run.root, path, multiset(rest'));
    EndListEnds(event, rest');
    rest := EndList(event) + rest';
    assert run.ended + rest == (run.ended + EndList(event)) + rest';
  }

  // ---------- whole runs ----------

  /** Along a schedule that completes, what the rest of the run ends with is what the start yields. */
  lemma {:induction false} RunYields(sys: System, run: Run, schedule: seq<seq<nat>>) returns (rest: seq<End>)
    requires TellsOnce(sys) && InvRun(run) && Orderly(sys, run, schedule)
    requires ExecAll(sys, run, schedule).Some? && ExecAll(sys, run, schedule).value.fired > 0
    ensures ExecAll(sys, run, schedule).value.ended == run.ended + rest
    ensures Yields(sys, run.root, multiset(rest))
    decreases |schedule|
  {
    if schedule == [] {
      rest := [];
      ReportedFinished(run.root);
      FinishedYields(sys, run.root);
    } else {
      StepRunInv(sys, run, schedule[0]);
      var run' := ExecRun(sys, run, schedule[0]).value.0;
      var rest' := RunYields(sys, run', schedule[1..]);
      rest := RunStepYields(sys, run, schedule[0], rest');
    }
  }

  /**
  Refinement, on every chain, nested through flow nodes or not: the end callbacks of a completed run
  are a result of the evaluator, for every orderly schedule.
  */
  lemma RunsRefineEval(sys: System, first: NodeRef, msg: RuleMsg, schedule: seq<seq<nat>>)
    requires TellsOnce(sys) && Orderly(sys, Start(first, msg), schedule)
    requires ExecAll(sys, Start(first, msg), schedule).Some?
    requires ExecAll(sys, Start(first, msg), schedule).value.fired > 0
    ensures Eval(sys, first, msg, multiset(ExecAll(sys, Start(first, msg), schedule).value.ended))
  {
    StartInv(first, msg);
    var rest := RunYields(sys, Start(first, msg), schedule);
    NewCtxYields(sys, first, Pending(first, msg), multiset(rest));
    assert [] + rest == rest;
  }
}
