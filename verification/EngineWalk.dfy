/** The plain recursive walk of acyclic chains, and when every run agrees with it. */
module EngineWalk {
  import opened Messages
  import opened Engine
  import opened EngineSafety
  import opened EngineRefinement

  /** The chains are acyclic: `rank` falls along every connection and into every called sub-chain. */
  ghost predicate Ranked(sys: System, rank: NodeRef -> nat)
  {
    && (forall node, i :: 0 <= i < |sys.routes(node)| ==>
          rank(sys.routes(node)[i].target) < rank(node))
    && (forall node :: sys.flow(node).Some? && sys.first(sys.flow(node).value).Some? ==>
          rank(sys.first(sys.flow(node).value).value) < rank(node))
  }

  ghost predicate Below(rank: NodeRef -> nat, bound: nat, actions: seq<Action>)
  {
    forall i :: 0 <= i < |actions| && actions[i].Spawn? ==> rank(actions[i].target) < bound
  }

  lemma {:induction false} TargetsBelow(rank: NodeRef -> nat, bound: nat, routes: seq<Route>, relation: string)
    requires forall i :: 0 <= i < |routes| ==> rank(routes[i].target) < bound
    ensures forall i :: 0 <= i < |Targets(routes, relation)| ==> rank(Targets(routes, relation)[i]) < bound
  {
    if routes == [] {
    } else {
      TargetsBelow(rank, bound, routes[1..], relation);
    }
  }

  lemma {:induction false} SpawnAllBelow(rank: NodeRef -> nat, bound: nat, targets: seq<NodeRef>, relation: string)
    requires forall i :: 0 <= i < |targets| ==> rank(targets[i]) < bound
    ensures Below(rank, bound, SpawnAll(targets, relation))
  {
    if targets == [] {
    } else {
      SpawnAllBelow(rank, bound, targets[1..], relation);
    }
  }

  lemma {:induction false} PlanEachBelow(sys: System, rank: NodeRef -> nat, self: NodeRef, names: seq<string>)
    requires Ranked(sys, rank)
    ensures Below(rank, rank(self), PlanEach(sys, self, names))
  {
    if names == [] {
    } else {
      TargetsBelow(rank, rank(self), sys.routes(self), names[0]);
      SpawnAllBelow(rank, rank(self), Targets(sys.routes(self), names[0]), names[0]);
      PlanEachBelow(sys, rank, self, names[1..]);
    }
  }

  lemma PlanBelow(sys: System, rank: NodeRef -> nat, self: NodeRef, relations: Relations)
    requires Ranked(sys, rank)
    ensures Below(rank, rank(self), Plan(sys, self, relations))
  {
    if relations.Given? {
      PlanEachBelow(sys, rank, self, relations.names);
    }
  }

  /** The ends of `node` given `msg`, one node after another, depth first, in definition order. */
  ghost function Walk(sys: System, rank: NodeRef -> nat, node: NodeRef, msg: RuleMsg): seq<End>
    requires Ranked(sys, rank)
    decreases rank(node), 1, 0
  {
    match sys.flow(node)
    case None =>
      (match sys.behave(node, msg)
       case Panics => []
       case Tells(out, err, relations) =>
         PlanBelow(sys, rank, node, relations);
         WalkActions(sys, rank, node, out, err, Plan(sys, node, relations)))
    case Some(chainId) =>
      (match sys.first(chainId)
       case None =>
         PlanBelow(sys, rank, node, Given([FAILURE]));
         WalkActions(sys, rank, node, msg, NotFound(chainId), Plan(sys, node, Given([FAILURE])))
       case Some(f) =>
         PlanBelow(sys, rank, node, Given([SUCCESS]));
         WalkActions(sys, rank, node, WrapEnds(sys.encode, msg, Walk(sys, rank, f, msg)), None,
                     Plan(sys, node, Given([SUCCESS]))))
  }

  ghost function WalkActions(sys: System, rank: NodeRef -> nat, self: NodeRef, msg: RuleMsg,
                             err: Option<string>, actions: seq<Action>): seq<End>
    requires Ranked(sys, rank) && Below(rank, rank(self), actions)
    decreases rank(self), 0, |actions|
  {
    if actions == [] then [] else
    (match actions[0]
     case Finish(relation) => [End(self, msg, err, relation)]
     case Spawn(target, _) => Walk(sys, rank, target, msg)) +
    WalkActions(sys, rank, self, msg, err, actions[1..])
  }

  // ---------- the walk is a result of the evaluator ----------

  lemma {:induction false} WalkIsEval(sys: System, rank: NodeRef -> nat, node: NodeRef, msg: RuleMsg)
    requires Ranked(sys, rank)
    ensures Eval(sys, node, msg, multiset(Walk(sys, rank, node, msg)))
    decreases rank(node), 1, 0
  {
    match sys.flow(node)
    case None =>
      if sys.behave(node, msg).Tells? {
        var Tells(out, err, relations) := sys.behave(node, msg);
        PlanBelow(sys, rank, node, relations);
        WalkActionsIsEval(sys, rank, node, out, err, Plan(sys, node, relations));
      }
    case Some(chainId) =>
      match sys.first(chainId)
      case None =>
        PlanBelow(sys, rank, node, Given([FAILURE]));
        WalkActionsIsEval(sys, rank, node, msg, NotFound(chainId), Plan(sys, node, Given([FAILURE])));
      case Some(f) =>
        PlanBelow(sys, rank, node, Given([SUCCESS]));
        WalkIsEval(sys, rank, f, msg);
        WalkActionsIsEval(sys, rank, node, WrapEnds(sys.encode, msg, Walk(sys, rank, f, msg)), None,
                          Plan(sys, node, Given([SUCCESS])));
  }

  lemma {:induction false} WalkActionsIsEval(sys: System, rank: NodeRef -> nat, self: NodeRef, msg: RuleMsg,
                                             err: Option<string>, actions: seq<Action>)
    requires Ranked(sys, rank) && Below(rank, rank(self), actions)
    ensures EvalActions(sys, self, msg, err, actions,
                        multiset(WalkActions(sys, rank, self, msg, err, actions)))
    decreases rank(self), 0, |actions|
  {
    if actions == [] {
    } else {
      var rest := WalkActions(sys, rank, self, msg, err, actions[1..]);
      WalkActionsIsEval(sys, rank, self, msg, err, actions[1..]);
      var here;
      match actions[0] {
        case Finish(relation) => here := [End(self, msg, err, relation)];
        case Spawn(target, _) =>
          WalkIsEval(sys, rank, target, msg);
          here := Walk(sys, rank, target, msg);
      }
      EvalCons(sys, self, msg, err, actions, multiset(here), multiset(rest));
      assert multiset(here + rest) == multiset(rest) + multiset(here);
    }
  }

  // ---------- when it is the only result ----------

  /** What a flow node tells does not depend on the order in which the ends of its sub-chain arrive. */
  ghost predicate OrderBlind(sys: System, rank: NodeRef -> nat)
    requires Ranked(sys, rank)
  {
    forall node, msg :: sys.flow(node).Some? && sys.first(sys.flow(node).value).Some? ==>
      BlindTo(sys, msg, Walk(sys, rank, sys.first(sys.flow(node).value).value, msg))
  }

  ghost predicate BlindTo(sys: System, msg: RuleMsg, ends: seq<End>)
  {
    forall order: seq<End> :: multiset(order) == multiset(ends) ==>
      WrapEnds(sys.encode, msg, order) == WrapEnds(sys.encode, msg, ends)
  }

  /** No called sub-chain ends more than once, so a flow node has no order to choose. */
  ghost predicate SingleEnds(sys: System, rank: NodeRef -> nat)
    requires Ranked(sys, rank)
  {
    forall node, msg :: sys.flow(node).Some? && sys.first(sys.flow(node).value).Some? ==>
      |Walk(sys, rank, sys.first(sys.flow(node).value).value, msg)| <= 1
  }

  lemma SingleEndsAreBlind(sys: System, rank: NodeRef -> nat)
    requires Ranked(sys, rank) && SingleEnds(sys, rank)
    ensures OrderBlind(sys, rank)
  {
    forall node, msg | sys.flow(node).Some? && sys.first(sys.flow(node).value).Some?
      ensures BlindTo(sys, msg, Walk(sys, rank, sys.first(sys.flow(node).value).value, msg))
    {
      var ends := Walk(sys, rank, sys.first(sys.flow(node).value).value, msg);
      forall order: seq<End> | multiset(order) == multiset(ends)
        ensures WrapEnds(sys.encode, msg, order) == WrapEnds(sys.encode, msg, ends)
      {
        ShortOrder(order, ends);
      }
    }
  }

  /** The one end of a flow node that ends the chain, if its sub-chain's ends arrive in this order. */
  function FlowEnd(sys: System, node: NodeRef, msg: RuleMsg, order: seq<End>): End
  {
    End(node, WrapEnds(sys.encode, msg, order), None, SUCCESS)
  }

  lemma EndingPlan(sys: System, node: NodeRef)
    requires Targets(sys.routes(node), SUCCESS) == []
    ensures Plan(sys, node, Given([SUCCESS])) == [Finish(SUCCESS)]
  {
    assert [SUCCESS][1..] == [];
    assert PlanEach(sys, node, [SUCCESS]) == PlanOne(sys, node, SUCCESS) + PlanEach(sys, node, []);
  }

  lemma FinishOnly(sys: System, self: NodeRef, msg: RuleMsg, err: Option<string>, relation: string, ends: multiset<End>)
    ensures EvalActions(sys, self, msg, err, [Finish(relation)], ends) <==>
            ends == multiset{End(self, msg, err, relation)}
  {
    var e := End(self, msg, err, relation);
    assert [Finish(relation)][1..] == [];
    if e in ends && ends - multiset{e} == multiset{} {
      assert ends == (ends - multiset{e}) + multiset{e};
    }
  }

  /** The results of such a flow node are its end for any order of any result of its sub-chain. */
  lemma FlowEndEval(sys: System, node: NodeRef, f: NodeRef, msg: RuleMsg, ends: multiset<End>)
    requires sys.flow(node).Some? && sys.first(sys.flow(node).value) == Some(f)
    requires Targets(sys.routes(node), SUCCESS) == []
    ensures Eval(sys, node, msg, ends) <==>
            exists order: seq<End> ::
              Eval(sys, f, msg, multiset(order)) && ends == multiset{FlowEnd(sys, node, msg, order)}
  {
    EndingPlan(sys, node);
    forall order: seq<End>
      ensures EvalActions(sys, node, WrapEnds(sys.encode, msg, order), None, [Finish(SUCCESS)], ends) <==>
              ends == multiset{FlowEnd(sys, node, msg, order)}
    {
      FinishOnly(sys, node, WrapEnds(sys.encode, msg, order), None, SUCCESS, ends);
    }
  }

  /** The evaluator has this result and no other. */
  ghost predicate OnlyResult(sys: System, node: NodeRef, msg: RuleMsg, ends: multiset<End>)
  {
    forall result :: Eval(sys, node, msg, result) <==> result == ends
  }

  /**
  Blindness is what it takes: a flow node that ends the chain, over a sub-chain with one result, has
  one result itself if and only if what it tells does not depend on the order of the ends.
  */
  lemma OneResultIff(sys: System, node: NodeRef, f: NodeRef, msg: RuleMsg, ends: seq<End>)
    requires sys.flow(node).Some? && sys.first(sys.flow(node).value) == Some(f)
    requires Targets(sys.routes(node), SUCCESS) == [] && OnlyResult(sys, f, msg, multiset(ends))
    ensures Eval(sys, node, msg, multiset{FlowEnd(sys, node, msg, ends)})
    ensures BlindTo(sys, msg, ends) <==> OnlyResult(sys, node, msg, multiset{FlowEnd(sys, node, msg, ends)})
  {
    FlowEndReached(sys, node, f, msg, ends);
    if BlindTo(sys, msg, ends) {
      forall result | Eval(sys, node, msg, result)
        ensures result == multiset{FlowEnd(sys, node, msg, ends)}
      {
        BlindResult(sys, node, f, msg, ends, result);
      }
    } else {
      var order: seq<End> :| multiset(order) == multiset(ends) &&
                             WrapEnds(sys.encode, msg, order) != WrapEnds(sys.encode, msg, ends);
      FlowEndReached(sys, node, f, msg, order);
      assert FlowEnd(sys, node, msg, order) !in multiset{FlowEnd(sys, node, msg, ends)};
    }
  }

  lemma FlowEndReached(sys: System, node: NodeRef, f: NodeRef, msg: RuleMsg, order: seq<End>)
    requires sys.flow(node).Some? && sys.first(sys.flow(node).value) == Some(f)
    requires Targets(sys.routes(node), SUCCESS) == [] && Eval(sys, f, msg, multiset(order))
    ensures Eval(sys, node, msg, multiset{FlowEnd(sys, node, msg, order)})
  {
    FlowEndEval(sys, node, f, msg, multiset{FlowEnd(sys, node, msg, order)});
  }

  lemma BlindResult(sys: System, node: NodeRef, f: NodeRef, msg: RuleMsg, ends: seq<End>, result: multiset<End>)
    requires sys.flow(node).Some? && sys.first(sys.flow(node).value) == Some(f)
    requires Targets(sys.routes(node), SUCCESS) == [] && OnlyResult(sys, f, msg, multiset(ends))
    requires BlindTo(sys, msg, ends) && Eval(sys, node, msg, result)
    ensures result == multiset{FlowEnd(sys, node, msg, ends)}
  {
    FlowEndEval(sys, node, f, msg, result);
    var order: seq<End> :| Eval(sys, f, msg, multiset(order)) && result == multiset{FlowEnd(sys, node, msg, order)};
    assert multiset(order) == multiset(ends);
  }

  lemma ShortOrder(a: seq<End>, b: seq<End>)
    requires multiset(a) == multiset(b) && |b| <= 1
    ensures a == b
  {
    assert |a| == |multiset(a)| == |multiset(b)| == |b|;
    if |b| == 1 {
      assert a[0] in multiset(b);
    }
  }

  /** The ends that an evaluation gives to the first of its actions. */
  lemma FirstShare(sys: System, self: NodeRef, msg: RuleMsg, err: Option<string>,
                   actions: seq<Action>, ends: multiset<End>) returns (here: multiset<End>)
    requires actions != [] && EvalActions(sys, self, msg, err, actions, ends)
    ensures here <= ends && EvalActions(sys, self, msg, err, actions[1..], ends - here)
    ensures EvalAction(sys, self, msg, err, actions[0], here)
  {
    match actions[0]
    case Finish(relation) => here := multiset{End(self, msg, err, relation)};
    case Spawn(target, _) =>
      here :| here <= ends && Eval(sys, target, msg, here) &&
        EvalActions(sys, self, msg, err, actions[1..], ends - here);
  }

  lemma Regroup(all: multiset<End>, here: multiset<End>)
    requires here <= all
    ensures forall a: seq<End>, b: seq<End> :: multiset(a) == here && multiset(b) == all - here ==>
              multiset(a + b) == all
  {
  }

  lemma {:induction false} EvalIsWalk(sys: System, rank: NodeRef -> nat, node: NodeRef, msg: RuleMsg,
                                      ends: multiset<End>)
    requires Ranked(sys, rank) && OrderBlind(sys, rank) && Eval(sys, node, msg, ends)
    ensures ends == multiset(Walk(sys, rank, node, msg))
    decreases rank(node), 1, 0
  {
    match sys.flow(node)
    case None =>
      if sys.behave(node, msg).Tells? {
        var Tells(out, err, relations) := sys.behave(node, msg);
        PlanBelow(sys, rank, node, relations);
        EvalActionsIsWalk(sys, rank, node, out, err, Plan(sys, node, relations), ends);
      }
    case Some(chainId) =>
      match sys.first(chainId)
      case None =>
        PlanBelow(sys, rank, node, Given([FAILURE]));
        EvalActionsIsWalk(sys, rank, node, msg, NotFound(chainId), Plan(sys, node, Given([FAILURE])), ends);
      case Some(f) =>
        PlanBelow(sys, rank, node, Given([SUCCESS]));
        var order: seq<End> :|
          Eval(sys, f, msg, multiset(order)) &&
          EvalActions(sys, node, WrapEnds(sys.encode, msg, order), None,
                      Plan(sys, node, Given([SUCCESS])), ends);
        EvalIsWalk(sys, rank, f, msg, multiset(order));
        assert BlindTo(sys, msg, Walk(sys, rank, f, msg));
        EvalActionsIsWalk(sys, rank, node, WrapEnds(sys.encode, msg, Walk(sys, rank, f, msg)), None,
                          Plan(sys, node, Given([SUCCESS])), ends);
  }

  lemma {:induction false} EvalActionsIsWalk(sys: System, rank: NodeRef -> nat, self: NodeRef, msg: RuleMsg,
                                             err: Option<string>, actions: seq<Action>, ends: multiset<End>)
    requires Ranked(sys, rank) && OrderBlind(sys, rank) && Below(rank, rank(self), actions)
    requires EvalActions(sys, self, msg, err, actions, ends)
    ensures ends == multiset(WalkActions(sys, rank, self, msg, err, actions))
    decreases rank(self), 0, |actions|
  {
    if actions == [] {
    } else {
      var here := FirstShare(sys, self, msg, err, actions, ends);
      EvalActionsIsWalk(sys, rank, self, msg, err, actions[1..], ends - here);
      if actions[0].Spawn? {
        EvalIsWalk(sys, rank, actions[0].target, msg, here);
      }
      Regroup(ends, here);
    }
  }

  /**
  Schedule independence: on acyclic chains whose flow nodes do not depend on arrival order (in particular
  without flow nodes, or with sub-chains that end at most once), every orderly schedule that completes
  makes exactly the end callbacks of the walk.
  */
  lemma RunsEqualWalk(sys: System, rank: NodeRef -> nat, first: NodeRef, msg: RuleMsg, schedule: seq<seq<nat>>)
    requires TellsOnce(sys) && Ranked(sys, rank) && OrderBlind(sys, rank)
    requires Orderly(sys, Start(first, msg), schedule)
    requires ExecAll(sys, Start(first, msg), schedule).Some?
    requires ExecAll(sys, Start(first, msg), schedule).value.fired > 0
    ensures multiset(ExecAll(sys, Start(first, msg), schedule).value.ended) ==
            multiset(Walk(sys, rank, first, msg))
  {
    RunsRefineEval(sys, first, msg, schedule);
    EvalIsWalk(sys, rank, first, msg, multiset(ExecAll(sys, Start(first, msg), schedule).value.ended));
  }
}
