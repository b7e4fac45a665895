/** Sub-chains called by flow nodes, at any depth of nesting, in every reachable state. */
module EngineFlow {
  import opened Messages
  import opened Sums
  import opened Engine
  import opened EngineSafety
  import opened EngineRefinement
  import opened EngineWalk

  /** `run` is the run that the flow node `self` started on `msg`, some orderly schedule later. */
  ghost predicate Called(sys: System, self: NodeRef, run: Run, msg: RuleMsg)
  {
    && sys.flow(self).Some? && sys.first(sys.flow(self).value).Some?
    && exists schedule :: CalledBy(sys, sys.first(sys.flow(self).value).value, run, msg, schedule)
  }

  ghost predicate CalledBy(sys: System, first: NodeRef, run: Run, msg: RuleMsg, schedule: seq<seq<nat>>)
  {
    Orderly(sys, Start(first, msg), schedule) && ExecAll(sys, Start(first, msg), schedule) == Some(run)
  }

  ghost predicate Embedded(sys: System, c: Ctx)
    decreases c
  {
    forall p :: p in c.parts ==> EmbeddedPart(sys, c.self, p)
  }

  ghost predicate EmbeddedPart(sys: System, self: NodeRef, p: Part)
    decreases p
  {
    match p
    case Child(d) => Embedded(sys, d)
    case SubChain(run, msg) => Called(sys, self, run, msg) && Embedded(sys, run.root)
    case _ => true
  }

  /** While a sub-chain of `c` has not completed, `c` tells nothing, owes nothing and has not reported. */
  ghost predicate WaitsForFlow(c: Ctx)
  {
    (exists p :: p in c.parts && p.SubChain? && p.run.fired == 0) ==>
      c.reports == 0 && forall q :: q in c.parts ==> !q.Loop? && OutOf(q) == 0
  }

  /** A flow node waits for its sub-chain; a completed sub-chain is over, fired once, and handed over its own ends. */
  ghost predicate FlowsExact(sys: System, c: Ctx)
    decreases c
  {
    WaitsForFlow(c) && forall p :: p in c.parts ==> FlowsExactPart(sys, c.self, p)
  }

  lemma InvWaits(c: Ctx)
    requires Inv(c)
    ensures WaitsForFlow(c)
  {
    if p :| p in c.parts && p.SubChain? && p.run.fired == 0 {
      var i :| 0 <= i < |c.parts| && c.parts[i] == p;
      SumAtLeast(TellerOf, c.parts, i);
      assert TellerOk(c, p);
      forall q | q in c.parts
        ensures !q.Loop? && OutOf(q) == 0
      {
        var j :| 0 <= j < |c.parts| && c.parts[j] == q;
        SumAtLeast(OutOf, c.parts, j);
        if j != i {
          OnlyTeller(c, i, j);
        }
      }
    }
  }

  ghost predicate FlowsExactPart(sys: System, self: NodeRef, p: Part)
    decreases p
  {
    match p
    case Child(d) => FlowsExact(sys, d)
    case SubChain(run, msg) =>
      && FlowsExact(sys, run.root)
      && (run.fired > 0 ==>
            && run.fired == 1 && Finished(run.root)
            && sys.flow(self).Some? && sys.first(sys.flow(self).value).Some?
            && Eval(sys, sys.first(sys.flow(self).value).value, msg, multiset(run.ended)))
    case _ => true
  }

  // ---------- schedules of sub-runs ----------

  lemma {:induction false} ExtendSchedule(sys: System, run: Run, schedule: seq<seq<nat>>, path: seq<nat>)
    requires Orderly(sys, run, schedule) && ExecAll(sys, run, schedule).Some?
    requires ExecRun(sys, ExecAll(sys, run, schedule).value, path).Some?
    requires !Premature(ExecAll(sys, run, schedule).value.root, path)
    ensures Orderly(sys, run, schedule + [path])
    ensures ExecAll(sys, run, schedule + [path]) ==
            Some(ExecRun(sys, ExecAll(sys, run, schedule).value, path).value.0)
    decreases |schedule|
  {
    var longer := schedule + [path];
    if schedule == [] {
      assert longer == [path] && longer[1..] == [];
    } else {
      ExtendSchedule(sys, ExecRun(sys, run, schedule[0]).value.0, schedule[1..], path);
      assert longer[0] == schedule[0] && longer[1..] == schedule[1..] + [path];
    }
  }

  lemma CalledStep(sys: System, self: NodeRef, run: Run, msg: RuleMsg, path: seq<nat>)
    requires Called(sys, self, run, msg)
    requires ExecRun(sys, run, path).Some? && !Premature(run.root, path)
    ensures Called(sys, self, ExecRun(sys, run, path).value.0, msg)
  {
    var first := sys.first(sys.flow(self).value).value;
    var schedule :| CalledBy(sys, first, run, msg, schedule);
    ExtendSchedule(sys, Start(first, msg), schedule, path);
    assert CalledBy(sys, first, ExecRun(sys, run, path).value.0, msg, schedule + [path]);
  }

  lemma ActivateEmbedded(sys: System, self: NodeRef, node: NodeRef, msg: RuleMsg)
    ensures EmbeddedPart(sys, self, Activate(sys, node, msg))
  {
    if sys.flow(node).Some? && sys.first(sys.flow(node).value).Some? {
      var f := sys.first(sys.flow(node).value).value;
      assert CalledBy(sys, f, Start(f, msg), msg, []);
      assert Embedded(sys, Start(f, msg).root);
      assert EmbeddedPart(sys, node, SubChain(Start(f, msg), msg));
    }
  }

  lemma {:induction false} StepEmbedded(sys: System, c: Ctx, path: seq<nat>)
    requires Embedded(sys, c) && ExecCtx(sys, c, path).Some? && !Premature(c, path)
    ensures Embedded(sys, ExecCtx(sys, c, path).value.0)
    decreases |path|
  {
    StepLocal(sys, c, path);
    var i := path[0];
    var p := c.parts[i];
    var c' := ExecCtx(sys, c, path).value.0;
    assert p in c.parts && EmbeddedPart(sys, c.self, p);
    match p {
      case Pending(node, msg) => ActivateEmbedded(sys, c.self, node, msg);
      case Child(d) => StepEmbedded(sys, d, path[1..]);
      case SubChain(run, msg) =>
        StepEmbedded(sys, run.root, path[1..]);
        CalledStep(sys, c.self, run, msg, path[1..]);
      case _ =>
    }
    assert EmbeddedPart(sys, c.self, c'.parts[i]);
    forall q | q in c'.parts
      ensures EmbeddedPart(sys, c.self, q)
    {
      var j :| 0 <= j < |c'.parts| && c'.parts[j] == q;
      if j < |c.parts| && j != i {
        assert q in c.parts;
      }
    }
  }

  lemma {:induction false} RunEmbedded(sys: System, run: Run, schedule: seq<seq<nat>>)
    requires Embedded(sys, run.root) && Orderly(sys, run, schedule) && ExecAll(sys, run, schedule).Some?
    ensures Embedded(sys, ExecAll(sys, run, schedule).value.root)
    decreases |schedule|
  {
    if schedule == [] {
    } else {
      StepEmbedded(sys, run.root, schedule[0]);
      RunEmbedded(sys, ExecRun(sys, run, schedule[0]).value.0, schedule[1..]);
    }
  }

  lemma CalledExact(sys: System, self: NodeRef, run: Run, msg: RuleMsg)
    requires TellsOnce(sys) && Called(sys, self, run, msg) && run.fired > 0
    ensures run.fired == 1 && Finished(run.root)
    ensures Eval(sys, sys.first(sys.flow(self).value).value, msg, multiset(run.ended))
  {
    var first := sys.first(sys.flow(self).value).value;
    var schedule :| CalledBy(sys, first, run, msg, schedule);
    CompletionExact(sys, first, msg, schedule);
    RunsRefineEval(sys, first, msg, schedule);
  }

  lemma {:induction false} EmbeddedExact(sys: System, c: Ctx)
    requires TellsOnce(sys) && Embedded(sys, c) && Inv(c)
    ensures FlowsExact(sys, c)
    decreases c
  {
    InvWaits(c);
    forall p | p in c.parts
      ensures FlowsExactPart(sys, c.self, p)
    {
      assert EmbeddedPart(sys, c.self, p) && InvPart(p);
      match p
      case Child(d) => EmbeddedExact(sys, d);
      case SubChain(run, msg) =>
        EmbeddedExact(sys, run.root);
        if run.fired > 0 {
          CalledExact(sys, c.self, run, msg);
        }
      case _ =>
    }
  }

  /**
  In every reachable state, at every depth: a flow node has begun to tell only if its sub-chain is
  finished, and then the sub-chain's ends are a result of the evaluator.
  */
  lemma FlowsAreExact(sys: System, first: NodeRef, msg: RuleMsg, schedule: seq<seq<nat>>)
    requires TellsOnce(sys) && Orderly(sys, Start(first, msg), schedule)
    requires ExecAll(sys, Start(first, msg), schedule).Some?
    ensures FlowsExact(sys, ExecAll(sys, Start(first, msg), schedule).value.root)
  {
    StartInv(first, msg);
    RunInv(sys, Start(first, msg), schedule);
    RunEmbedded(sys, Start(first, msg), schedule);
    EmbeddedExact(sys, ExecAll(sys, Start(first, msg), schedule).value.root);
  }

  // ---------- what the flow node tells ----------

  /** The told message wraps exactly one entry per end, in arrival order. */
  lemma {:induction false} OneWrapperPerEnd(ends: seq<End>)
    ensures |WrapperList(ends)| == |ends|
    ensures forall i :: 0 <= i < |ends| ==> WrapperList(ends)[i] == WrapperOf(ends[i])
  {
    if ends == [] {
    } else {
      OneWrapperPerEnd(ends[..|ends| - 1]);
    }
  }

  /** A gathered key has the value of the last branch without an error that has it, or its old value. */
  lemma {:induction false} GatheredKey(md: map<string, string>, ends: seq<End>, key: string, i: nat)
    requires key != "" && i < |ends| && ends[i].err == None && key in ends[i].msg.metadata
    requires forall j :: i < j < |ends| ==> ends[j].err != None || key !in ends[j].msg.metadata
    ensures key in GatherMetadata(md, ends)
    ensures GatherMetadata(md, ends)[key] == ends[i].msg.metadata[key]
  {
    var n := |ends| - 1;
    if i == n {
    } else {
      GatheredKey(md, ends[..n], key, i);
    }
  }

  lemma {:induction false} UngatheredKey(md: map<string, string>, ends: seq<End>, key: string)
    requires forall j :: 0 <= j < |ends| ==> ends[j].err != None || key == "" || key !in ends[j].msg.metadata
    ensures key in GatherMetadata(md, ends) <==> key in md
    ensures key in md ==> GatherMetadata(md, ends)[key] == md[key]
  {
    if ends == [] {
    } else {
      UngatheredKey(md, ends[..|ends| - 1], key);
    }
  }

  /** Branch `i` is the last one that ended without an error and has the key. */
  ghost predicate LastUsable(ends: seq<End>, key: string, i: nat)
  {
    && i < |ends| && ends[i].err == None && key in ends[i].msg.metadata
    && forall j :: i < j < |ends| ==> ends[j].err != None || key !in ends[j].msg.metadata
  }

  ghost predicate NoneUsable(ends: seq<End>, key: string)
  {
    forall j :: 0 <= j < |ends| ==> ends[j].err != None || key !in ends[j].msg.metadata
  }

  /** What the entry for one end says. */
  ghost predicate Describes(w: WrapperMsg, e: End)
  {
    w.msg == e.msg && w.nodeId == e.node.id && w.err == if e.err.Some? then e.err.value else ""
  }

  /**
  The told message, field by field: JSON, the identity of the incoming message, one entry per end that
  describes it, and the metadata of the incoming message under those of the branches without an error.
  */
  ghost predicate Collects(encode: seq<WrapperMsg> -> string, told: RuleMsg, msg: RuleMsg, ends: seq<End>)
  {
    && told.dataType == JSON && told.id == msg.id && told.ts == msg.ts && told.kind == msg.kind
    && (exists list :: told.data == encode(list) && |list| == |ends| &&
          forall i :: 0 <= i < |ends| ==> Describes(list[i], ends[i]))
    && (forall key, i: nat :: key != "" && LastUsable(ends, key, i) ==>
          key in told.metadata && told.metadata[key] == ends[i].msg.metadata[key])
    && (forall key :: key == "" || NoneUsable(ends, key) ==>
          (key in told.metadata <==> key in msg.metadata) &&
          (key in msg.metadata ==> told.metadata[key] == msg.metadata[key]))
  }

  lemma WrapCollects(encode: seq<WrapperMsg> -> string, msg: RuleMsg, ends: seq<End>)
    ensures Collects(encode, WrapEnds(encode, msg, ends), msg, ends)
  {
    var told, list := WrapEnds(encode, msg, ends), WrapperList(ends);
    OneWrapperPerEnd(ends);
    assert told.data == encode(list) && forall i :: 0 <= i < |ends| ==> Describes(list[i], ends[i]);
    forall key, i: nat | key != "" && LastUsable(ends, key, i)
      ensures key in told.metadata && told.metadata[key] == ends[i].msg.metadata[key]
    {
      GatheredKey(msg.metadata, ends, key, i);
    }
    forall key | key == "" || NoneUsable(ends, key)
      ensures key in told.metadata <==> key in msg.metadata
      ensures key in msg.metadata ==> told.metadata[key] == msg.metadata[key]
    {
      UngatheredKey(msg.metadata, ends, key);
    }
  }

  /** A flow node starts to tell Success, without an error, what it has collected. */
  lemma FlowTellsCollected(sys: System, self: NodeRef, msg: RuleMsg, ends: seq<End>)
    ensures var loop := FlowTell(sys, self, msg, ends);
            && loop.Loop? && loop.err == None && Collects(sys.encode, loop.msg, msg, ends)
            && loop.actions == PlanEach(sys, self, ["Success"])
  {
    WrapCollects(sys.encode, msg, ends);
  }

  /**
  A completed run of a flow node that ends the chain has made exactly one end callback, with Success and
  what it collected from some completed run of its sub-chain.
  */
  lemma FlowRunEnds(sys: System, node: NodeRef, f: NodeRef, msg: RuleMsg, schedule: seq<seq<nat>>)
    returns (sub: seq<End>)
    requires TellsOnce(sys) && Orderly(sys, Start(node, msg), schedule)
    requires ExecAll(sys, Start(node, msg), schedule).Some? && ExecAll(sys, Start(node, msg), schedule).value.fired > 0
    requires sys.flow(node).Some? && sys.first(sys.flow(node).value) == Some(f)
    requires Targets(sys.routes(node), SUCCESS) == []
    ensures Eval(sys, f, msg, multiset(sub))
    ensures var ended := ExecAll(sys, Start(node, msg), schedule).value.ended;
            && |ended| == 1 && ended[0].node == node && ended[0].err == None && ended[0].relation == "Success"
            && Collects(sys.encode, ended[0].msg, msg, sub)
  {
    var ended := ExecAll(sys, Start(node, msg), schedule).value.ended;
    RunsRefineEval(sys, node, msg, schedule);
    FlowEndEval(sys, node, f, msg, multiset(ended));
    sub :| Eval(sys, f, msg, multiset(sub)) && multiset(ended) == multiset{FlowEnd(sys, node, msg, sub)};
    assert |ended| == |multiset(ended)| == 1;
    assert ended[0] in multiset(ended);
    WrapCollects(sys.encode, msg, sub);
  }

  /** A completed run of a flow node whose sub-chain is missing ends with Failure and an error that names it. */
  lemma MissingChainEnds(sys: System, node: NodeRef, msg: RuleMsg, schedule: seq<seq<nat>>)
    requires TellsOnce(sys) && Orderly(sys, Start(node, msg), schedule)
    requires ExecAll(sys, Start(node, msg), schedule).Some? && ExecAll(sys, Start(node, msg), schedule).value.fired > 0
    requires sys.flow(node).Some? && sys.first(sys.flow(node).value) == None
    requires Targets(sys.routes(node), FAILURE) == []
    ensures ExecAll(sys, Start(node, msg), schedule).value.ended ==
            [End(node, msg, Some("ruleChain id=" + sys.flow(node).value + " not found"), "Failure")]
  {
    var ended := ExecAll(sys, Start(node, msg), schedule).value.ended;
    RunsRefineEval(sys, node, msg, schedule);
    var e := End(node, msg, NotFound(sys.flow(node).value), FAILURE);
    EndsWith(sys, node, FAILURE);
    FinishOnly(sys, node, msg, NotFound(sys.flow(node).value), FAILURE, multiset(ended));
    OneEnd(ended, e);
  }

  lemma EndsWith(sys: System, node: NodeRef, relation: string)
    requires Targets(sys.routes(node), relation) == []
    ensures Plan(sys, node, Given([relation])) == [Finish(relation)]
  {
    assert [relation][1..] == [];
    assert PlanEach(sys, node, [relation]) == PlanOne(sys, node, relation) + PlanEach(sys, node, []);
  }

  lemma OneEnd(ended: seq<End>, e: End)
    requires multiset(ended) == multiset{e}
    ensures ended == [e]
  {
    assert |ended| == |multiset(ended)| == 1;
    assert ended[0] in multiset(ended);
  }

  /** A completed run of an ordinary node without a connection for what it tells ends with just that. */
  lemma LastNodeEnds(sys: System, node: NodeRef, msg: RuleMsg, out: RuleMsg, err: Option<string>, relation: string,
                     schedule: seq<seq<nat>>)
    requires TellsOnce(sys) && Orderly(sys, Start(node, msg), schedule)
    requires ExecAll(sys, Start(node, msg), schedule).Some? && ExecAll(sys, Start(node, msg), schedule).value.fired > 0
    requires sys.flow(node) == None && sys.behave(node, msg) == Tells(out, err, Given([relation]))
    requires forall i :: 0 <= i < |sys.routes(node)| ==> sys.routes(node)[i].relation != relation
    ensures ExecAll(sys, Start(node, msg), schedule).value.ended == [End(node, out, err, relation)]
  {
    var ended := ExecAll(sys, Start(node, msg), schedule).value.ended;
    RunsRefineEval(sys, node, msg, schedule);
    NoTarget(sys.routes(node), relation);
    EndsWith(sys, node, relation);
    FinishOnly(sys, node, out, err, relation, multiset(ended));
    OneEnd(ended, End(node, out, err, relation));
  }

  lemma {:induction false} NoTarget(routes: seq<Route>, relation: string)
    requires forall i :: 0 <= i < |routes| ==> routes[i].relation != relation
    ensures Targets(routes, relation) == []
  {
    if routes == [] {
    } else {
      NoTarget(routes[1..], relation);
    }
  }
}
