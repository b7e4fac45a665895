/** Exactly which results runs have, and when the order in which branches end can be told from them. */
module EngineOrder {
  import opened Messages
  import opened Engine
  import opened EngineSafety
  import opened EngineRefinement
  import opened EngineWalk
  import opened EngineFlow
  import opened EngineReach
  import opened EngineExactness

  /** The orderly schedule completes, with these end callbacks in this order. */
  ghost predicate Completes(sys: System, first: NodeRef, msg: RuleMsg, schedule: seq<seq<nat>>, ended: seq<End>)
  {
    && Orderly(sys, Start(first, msg), schedule) && ExecAll(sys, Start(first, msg), schedule).Some?
    && ExecAll(sys, Start(first, msg), schedule).value.fired > 0
    && ExecAll(sys, Start(first, msg), schedule).value.ended == ended
  }

  /** On acyclic chains, runs and evaluator agree completely: the results of one are those of the other. */
  lemma RunsAreEval(sys: System, rank: NodeRef -> nat, first: NodeRef, msg: RuleMsg, ended: seq<End>)
    requires TellsOnce(sys) && Ranked(sys, rank)
    ensures (exists schedule :: Completes(sys, first, msg, schedule, ended)) <==> Eval(sys, first, msg, multiset(ended))
  {
    if Eval(sys, first, msg, multiset(ended)) {
      var schedule := Reach(sys, rank, first, msg, ended);
      assert Completes(sys, first, msg, schedule, ended);
    }
    if schedule :| Completes(sys, first, msg, schedule, ended) {
      RunsRefineEval(sys, first, msg, schedule);
    }
  }

  /** All orderly completing runs make the same end callbacks, in whatever order. */
  ghost predicate RunsAgree(sys: System, first: NodeRef, msg: RuleMsg)
  {
    forall s, a, t, b :: Completes(sys, first, msg, s, a) && Completes(sys, first, msg, t, b) ==>
      multiset(a) == multiset(b)
  }

  lemma {:induction false} Listed(ends: multiset<End>) returns (order: seq<End>)
    ensures multiset(order) == ends
    decreases |ends|
  {
    if ends == multiset{} {
      order := [];
    } else {
      var e :| e in ends;
      var rest := Listed(ends - multiset{e});
      order := rest + [e];
      assert ends == (ends - multiset{e}) + multiset{e};
    }
  }

  /** Runs agree if and only if the walk is the only result of the evaluator. */
  lemma AgreeIff(sys: System, rank: NodeRef -> nat, first: NodeRef, msg: RuleMsg)
    requires TellsOnce(sys) && Ranked(sys, rank)
    ensures RunsAgree(sys, first, msg) <==> OnlyResult(sys, first, msg, multiset(Walk(sys, rank, first, msg)))
  {
    var walk := Walk(sys, rank, first, msg);
    WalkIsEval(sys, rank, first, msg);
    if RunsAgree(sys, first, msg) {
      RunsAreEval(sys, rank, first, msg, walk);
      var s :| Completes(sys, first, msg, s, walk);
      forall ends | Eval(sys, first, msg, ends)
        ensures ends == multiset(walk)
      {
        var order := Listed(ends);
        RunsAreEval(sys, rank, first, msg, order);
        var t :| Completes(sys, first, msg, t, order);
      }
    } else {
      var s, a, t, b :|
        Completes(sys, first, msg, s, a) && Completes(sys, first, msg, t, b) && multiset(a) != multiset(b);
      RunsAreEval(sys, rank, first, msg, a);
      RunsAreEval(sys, rank, first, msg, b);
    }
  }

  // ---------- flow nodes ----------

  /** Over a sub-chain whose runs agree, a flow node that ends the chain agrees iff it is blind to their order. */
  lemma FlowAgreesIff(sys: System, rank: NodeRef -> nat, node: NodeRef, f: NodeRef, msg: RuleMsg)
    requires TellsOnce(sys) && Ranked(sys, rank)
    requires sys.flow(node).Some? && sys.first(sys.flow(node).value) == Some(f)
    requires Targets(sys.routes(node), SUCCESS) == [] && RunsAgree(sys, f, msg)
    ensures RunsAgree(sys, node, msg) <==> BlindTo(sys, msg, Walk(sys, rank, f, msg))
  {
    AgreeIff(sys, rank, f, msg);
    OneResultIff(sys, node, f, msg, Walk(sys, rank, f, msg));
    AgreeIff(sys, rank, node, msg);
    WalkIsEval(sys, rank, node, msg);
    var one := multiset{FlowEnd(sys, node, msg, Walk(sys, rank, f, msg))};
    SameOnly(sys, node, msg, one, multiset(Walk(sys, rank, node, msg)));
  }

  lemma SameOnly(sys: System, node: NodeRef, msg: RuleMsg, a: multiset<End>, b: multiset<End>)
    requires Eval(sys, node, msg, a) && Eval(sys, node, msg, b)
    ensures OnlyResult(sys, node, msg, a) <==> OnlyResult(sys, node, msg, b)
  {
  }

  ghost predicate Injective(encode: seq<WrapperMsg> -> string)
  {
    forall a, b :: encode(a) == encode(b) ==> a == b
  }

  /** Every branch ended with the same message, error text and node. */
  ghost predicate Alike(ends: seq<End>)
  {
    forall i, j :: 0 <= i < |ends| && 0 <= j < |ends| ==> WrapperOf(ends[i]) == WrapperOf(ends[j])
  }

  predicate SomeSucceeded(ends: seq<End>)
  {
    exists i :: 0 <= i < |ends| && ends[i].err == None
  }

  /** Branches that are alike put the same entries. */
  lemma {:induction false} GatherAlike(md: map<string, string>, ends: seq<End>, msg: RuleMsg)
    requires forall i :: 0 <= i < |ends| ==> ends[i].msg == msg
    ensures GatherMetadata(md, ends) == if SomeSucceeded(ends) then PutAll(md, msg.metadata) else md
  {
    if ends == [] {
    } else {
      var n := |ends| - 1;
      GatherAlike(md, ends[..n], msg);
      if SomeSucceeded(ends[..n]) {
        var i :| 0 <= i < n && ends[..n][i].err == None;
        assert ends[i].err == None;
        assert PutAll(PutAll(md, msg.metadata), msg.metadata) == PutAll(md, msg.metadata);
      } else {
        assert SomeSucceeded(ends) ==> ends[n].err == None by {
          assert forall i :: 0 <= i < n ==> ends[..n][i] == ends[i];
        }
      }
    }
  }

  lemma SameMembers(a: seq<End>, b: seq<End>)
    requires multiset(a) == multiset(b)
    ensures |a| == |b| && SomeSucceeded(a) == SomeSucceeded(b)
    ensures forall i :: 0 <= i < |a| ==> exists j :: 0 <= j < |b| && a[i] == b[j]
  {
    assert |a| == |multiset(a)| == |multiset(b)| == |b|;
    forall i | 0 <= i < |a|
      ensures exists j :: 0 <= j < |b| && a[i] == b[j]
    {
      assert a[i] in multiset(b);
    }
    forall i | 0 <= i < |b|
      ensures exists j :: 0 <= j < |a| && b[i] == a[j]
    {
      assert b[i] in multiset(a);
    }
  }

  lemma AlikeIsBlind(sys: System, msg: RuleMsg, ends: seq<End>)
    requires Alike(ends)
    ensures BlindTo(sys, msg, ends)
  {
    forall order: seq<End> | multiset(order) == multiset(ends)
      ensures WrapEnds(sys.encode, msg, order) == WrapEnds(sys.encode, msg, ends)
    {
      SameMembers(order, ends);
      OneWrapperPerEnd(order);
      OneWrapperPerEnd(ends);
      assert WrapperList(order) == WrapperList(ends);
      if ends != [] {
        assert forall i :: 0 <= i < |ends| ==> WrapperOf(ends[i]).msg == ends[i].msg;
        GatherAlike(msg.metadata, ends, ends[0].msg);
        GatherAlike(msg.metadata, order, ends[0].msg);
      }
    }
  }

  lemma Swapped(ends: seq<End>, i: nat, j: nat) returns (order: seq<End>)
    requires i < j < |ends|
    ensures multiset(order) == multiset(ends) && |order| == |ends| && order[i] == ends[j]
  {
    order := ends[i := ends[j]][j := ends[i]];
    assert ends == ends[..i] + [ends[i]] + ends[i + 1..j] + [ends[j]] + ends[j + 1..];
    assert order == ends[..i] + [ends[j]] + ends[i + 1..j] + [ends[i]] + ends[j + 1..];
  }

  /** With an encoding that loses nothing: blind exactly if there is nothing to be told apart. */
  lemma BlindIffAlike(sys: System, msg: RuleMsg, ends: seq<End>)
    requires Injective(sys.encode)
    ensures BlindTo(sys, msg, ends) <==> Alike(ends)
  {
    if Alike(ends) {
      AlikeIsBlind(sys, msg, ends);
    } else {
      var i, j :| 0 <= i < |ends| && 0 <= j < |ends| && WrapperOf(ends[i]) != WrapperOf(ends[j]);
      var low, high := if i < j then i else j, if i < j then j else i;
      var order := Swapped(ends, low, high);
      OneWrapperPerEnd(order);
      OneWrapperPerEnd(ends);
      assert WrapperList(order)[low] != WrapperList(ends)[low];
      assert WrapEnds(sys.encode, msg, order).data != WrapEnds(sys.encode, msg, ends).data;
    }
  }

  /**
  The exact condition, checkable on the sub-chain alone: a flow node that ends the chain, over a sub-chain
  whose runs agree, gives the same result in all runs if and only if all branches of the sub-chain end
  alike.
  */
  lemma FlowAgreesIffAlike(sys: System, rank: NodeRef -> nat, node: NodeRef, f: NodeRef, msg: RuleMsg)
    requires TellsOnce(sys) && Ranked(sys, rank) && Injective(sys.encode)
    requires sys.flow(node).Some? && sys.first(sys.flow(node).value) == Some(f)
    requires Targets(sys.routes(node), SUCCESS) == [] && RunsAgree(sys, f, msg)
    ensures RunsAgree(sys, node, msg) <==> Alike(Walk(sys, rank, f, msg))
  {
    FlowAgreesIff(sys, rank, node, f, msg);
    BlindIffAlike(sys, msg, Walk(sys, rank, f, msg));
  }

  // ---------- a chain on which they differ ----------

  const F := NodeRef("outer", "f")

  /** A flow node over a sub-chain that forks: a is connected to b and c, which end. */
  function Crossed(encode: seq<WrapperMsg> -> string): System
  {
    System((node: NodeRef) => if node == F then Some("chain") else None,
           (node, msg) => Tells(msg, None, Given([SUCCESS])),
           (node: NodeRef) => if node == A then [Route(SUCCESS, B), Route(SUCCESS, C)] else [],
           (chainId: string) => if chainId == "chain" then Some(A) else None,
           encode)
  }

  function CrossedRank(node: NodeRef): nat
  {
    if node == F then 2 else if node == A then 1 else 0
  }

  function EndOf(node: NodeRef, msg: RuleMsg): End { End(node, msg, None, SUCCESS) }

  lemma CrossedPlans(encode: seq<WrapperMsg> -> string)
    ensures Plan(Crossed(encode), A, Given([SUCCESS])) == [Spawn(B, SUCCESS), Spawn(C, SUCCESS)]
    ensures forall node :: node != A ==> Plan(Crossed(encode), node, Given([SUCCESS])) == [Finish(SUCCESS)]
    ensures TellsOnce(Crossed(encode)) && Ranked(Crossed(encode), CrossedRank)
  {
    var sys := Crossed(encode);
    DiamondPlans();
    assert Targets(sys.routes(A), SUCCESS) == Targets(Diamond().routes(A), SUCCESS);
    assert [SUCCESS][1..] == [];
    forall node
      ensures Plan(sys, node, Given([SUCCESS])) == PlanOne(sys, node, SUCCESS)
    {
      assert PlanEach(sys, node, [SUCCESS][1..]) == [];
    }
    assert PlanOne(sys, A, SUCCESS) == PlanOne(Diamond(), A, SUCCESS) == Plan(Diamond(), A, Given([SUCCESS])) by {
      assert PlanEach(Diamond(), A, [SUCCESS][1..]) == [];
    }
    forall node, m | sys.flow(node) == None && sys.behave(node, m).Tells?
      ensures Balanced(Plan(sys, node, sys.behave(node, m).relations))
    {
      PlanOneBalanced(sys, node, SUCCESS);
    }
  }

  lemma SubChainEnds(encode: seq<WrapperMsg> -> string, msg: RuleMsg)
    ensures Eval(Crossed(encode), A, msg, multiset{EndOf(B, msg), EndOf(C, msg)})
  {
    var sys := Crossed(encode);
    CrossedPlans(encode);
    var spawns := [Spawn(B, SUCCESS), Spawn(C, SUCCESS)];
    var b, c := multiset{EndOf(B, msg)}, multiset{EndOf(C, msg)};
    FinishOnly(sys, B, msg, None, SUCCESS, b);
    FinishOnly(sys, C, msg, None, SUCCESS, c);
    assert Eval(sys, B, msg, b) && Eval(sys, C, msg, c);
    assert spawns[1..] == [Spawn(C, SUCCESS)] && spawns[1..][1..] == [];
    EvalCons(sys, A, msg, None, spawns[1..], c, multiset{});
    assert multiset{} + c == c;
    EvalCons(sys, A, msg, None, spawns, b, c);
    assert c + b == multiset{EndOf(B, msg), EndOf(C, msg)};
  }

  /** Whatever the order of the two ends of the sub-chain, some run of the flow node sees it. */
  lemma FlowRun(encode: seq<WrapperMsg> -> string, msg: RuleMsg, order: seq<End>) returns (schedule: seq<seq<nat>>)
    requires multiset(order) == multiset{EndOf(B, msg), EndOf(C, msg)}
    ensures Completes(Crossed(encode), F, msg, schedule, [FlowEnd(Crossed(encode), F, msg, order)])
  {
    var sys := Crossed(encode);
    CrossedPlans(encode);
    SubChainEnds(encode, msg);
    var e := FlowEnd(sys, F, msg, order);
    FlowEndEval(sys, F, A, msg, multiset{e});
    assert multiset([e]) == multiset{e};
    schedule := Reach(sys, CrossedRank, F, msg, [e]);
  }

  lemma TwoWrappers(a: End, b: End)
    ensures WrapperList([a, b]) == [WrapperOf(a), WrapperOf(b)]
  {
    OneWrapperPerEnd([a, b]);
  }

  /**
  Two orderly completing runs of the same message through the same chain, with different end callbacks: the
  ends of the sub-chain arrived in different orders, and the encoding shows it.
  */
  lemma OrderShows(encode: seq<WrapperMsg> -> string, msg: RuleMsg)
    returns (s: seq<seq<nat>>, x: End, t: seq<seq<nat>>, y: End)
    requires var b, c := WrapperOf(EndOf(B, msg)), WrapperOf(EndOf(C, msg)); encode([b, c]) != encode([c, b])
    ensures Completes(Crossed(encode), F, msg, s, [x]) && Completes(Crossed(encode), F, msg, t, [y])
    ensures x != y && !RunsAgree(Crossed(encode), F, msg)
  {
    var b, c := EndOf(B, msg), EndOf(C, msg);
    assert multiset([b, c]) == multiset{b, c} == multiset([c, b]);
    s := FlowRun(encode, msg, [b, c]);
    t := FlowRun(encode, msg, [c, b]);
    x, y := FlowEnd(Crossed(encode), F, msg, [b, c]), FlowEnd(Crossed(encode), F, msg, [c, b]);
    TwoWrappers(b, c);
    TwoWrappers(c, b);
    assert x.msg.data != y.msg.data;
    assert x in multiset([x]) && x !in multiset([y]);
  }
}
