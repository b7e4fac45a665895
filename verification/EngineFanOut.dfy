/**
Which messages can complete early at all: exactly those of which some run gets to a node that fans out. There
everything but the fan-out loop can be run to its end, and the message completes with the loop not over.
*/
module EngineFanOut {
  import opened Messages
  import opened Sums
  import opened Engine
  import opened EngineSafety
  import opened EngineExactness
  import opened EngineWalk
  import opened EngineTermination

  // ---------- contexts inside a run ----------

  /** The context that a path of children and sub-chains leads to. */
  function CtxAt(c: Ctx, at: seq<nat>): Option<Ctx>
    decreases |at|
  {
    if at == [] then Some(c) else
    if at[0] >= |c.parts| then None else
    match c.parts[at[0]]
    case Child(d) => CtxAt(d, at[1..])
    case SubChain(run, _) => CtxAt(run.root, at[1..])
    case _ => None
  }

  lemma {:induction false} InvAt(c: Ctx, at: seq<nat>)
    requires Inv(c) && CtxAt(c, at).Some?
    ensures Inv(CtxAt(c, at).value)
    decreases |at|
  {
    if at == [] {
    } else {
      var p := c.parts[at[0]];
      assert p in c.parts && InvPart(p);
      match p
      case Child(d) => InvAt(d, at[1..]);
      case SubChain(run, _) => InvAt(run.root, at[1..]);
    }
  }

  /** A step of a context inside is a step of the whole, premature in one exactly if in the other. */
  lemma {:induction false} StepAt(sys: System, c: Ctx, at: seq<nat>, path: seq<nat>)
    requires CtxAt(c, at).Some? && ExecCtx(sys, CtxAt(c, at).value, path).Some?
    ensures ExecCtx(sys, c, at + path).Some?
    ensures CtxAt(ExecCtx(sys, c, at + path).value.0, at) == Some(ExecCtx(sys, CtxAt(c, at).value, path).value.0)
    ensures Premature(c, at + path) <==> Premature(CtxAt(c, at).value, path)
    decreases |at|
  {
    var whole := at + path;
    if at == [] {
      assert whole == path;
    } else {
      assert whole[0] == at[0] && whole[1..] == at[1..] + path;
      match c.parts[at[0]]
      case Child(d) => StepAt(sys, d, at[1..], path);
      case SubChain(run, _) => StepAt(sys, run.root, at[1..], path);
    }
  }

  // ---------- leaving a loop alone ----------

  /** There is a part `i` in the context that the path leads to. */
  predicate HasAt(c: Ctx, at: seq<nat>, i: nat)
  {
    CtxAt(c, at).Some? && i < |CtxAt(c, at).value.parts|
  }

  function PartAt(c: Ctx, at: seq<nat>, i: nat): Part
    requires HasAt(c, at, i)
  {
    CtxAt(c, at).value.parts[i]
  }

  /** The same with another part in that place. */
  function PutAt(c: Ctx, at: seq<nat>, i: nat, p: Part): Ctx
    requires HasAt(c, at, i)
    decreases |at|
  {
    if at == [] then c.(parts := c.parts[i := p]) else
    match c.parts[at[0]]
    case Child(d) => c.(parts := c.parts[at[0] := Child(PutAt(d, at[1..], i, p))])
    case SubChain(run, msg) =>
      c.(parts := c.parts[at[0] := SubChain(run.(root := PutAt(run.root, at[1..], i, p)), msg)])
  }

  lemma {:induction false} PutBack(c: Ctx, at: seq<nat>, i: nat, p: Part)
    requires HasAt(c, at, i)
    ensures PutAt(c, at, i, p).reports == c.reports && HasAt(PutAt(c, at, i, p), at, i)
    ensures PartAt(PutAt(c, at, i, p), at, i) == p
    ensures PutAt(PutAt(c, at, i, p), at, i, PartAt(c, at, i)) == c
    decreases |at|
  {
    if at == [] {
      assert c.parts[i := p][i := c.parts[i]] == c.parts;
    } else {
      var k := at[0];
      match c.parts[k] {
        case Child(d) => PutBack(d, at[1..], i, p);
        case SubChain(run, _) => PutBack(run.root, at[1..], i, p);
      }
      assert PutAt(c, at, i, p).parts[k := c.parts[k]] == c.parts;
    }
  }

  /** A step elsewhere does not depend on part `j`. */
  lemma Beside(sys: System, c: Ctx, j: nat, q: Part, path: seq<nat>)
    requires j < |c.parts| && ExecCtx(sys, c, path).Some? && path[0] != j
    ensures var (c', event) := ExecCtx(sys, c, path).value;
            && j < |c'.parts| && c'.parts[j] == c.parts[j]
            && ExecCtx(sys, c.(parts := c.parts[j := q]), path) == Some((c'.(parts := c'.parts[j := q]), event))
  {
    var k, d := path[0], c.(parts := c.parts[j := q]);
    var (c', event) := ExecCtx(sys, c, path).value;
    var d' := ExecCtx(sys, d, path).value.0;
    assert d'.parts == c'.parts[j := q];
  }

  lemma {:induction false} AloneInChild(sys: System, c: Ctx, at: seq<nat>, i: nat, p: Part, path: seq<nat>)
    requires HasAt(c, at, i) && PartAt(c, at, i) == Gone && ExecCtx(sys, c, path).Some?
    requires at != [] && path[0] == at[0] && c.parts[at[0]].Child?
    ensures var (c', event) := ExecCtx(sys, c, path).value;
            && HasAt(c', at, i) && PartAt(c', at, i) == Gone
            && ExecCtx(sys, PutAt(c, at, i, p), path) == Some((PutAt(c', at, i, p), event))
    decreases |path|, 1
  {
    var k, d := at[0], PutAt(c, at, i, p);
    var below := c.parts[k].ctx;
    LeftAlone(sys, below, at[1..], i, p, path[1..]);
    assert d.parts[k] == Child(PutAt(below, at[1..], i, p));
    var c', d' := ExecCtx(sys, c, path).value.0, ExecCtx(sys, d, path).value.0;
    assert d'.parts == PutAt(c', at, i, p).parts;
  }

  lemma {:induction false} AloneInFlow(sys: System, c: Ctx, at: seq<nat>, i: nat, p: Part, path: seq<nat>)
    requires HasAt(c, at, i) && PartAt(c, at, i) == Gone && ExecCtx(sys, c, path).Some?
    requires at != [] && path[0] == at[0] && c.parts[at[0]].SubChain?
    ensures var (c', event) := ExecCtx(sys, c, path).value;
            && HasAt(c', at, i) && PartAt(c', at, i) == Gone
            && ExecCtx(sys, PutAt(c, at, i, p), path) == Some((PutAt(c', at, i, p), event))
    decreases |path|, 1
  {
    var k, d := at[0], PutAt(c, at, i, p);
    var SubChain(run, msg) := c.parts[k];
    LeftAlone(sys, run.root, at[1..], i, p, path[1..]);
    var (run', fires) := ExecRun(sys, run, path[1..]).value;
    var alone, alone' := run.(root := PutAt(run.root, at[1..], i, p)), run'.(root := PutAt(run'.root, at[1..], i, p));
    assert ExecRun(sys, alone, path[1..]) == Some((alone', fires));
    assert d.parts[k] == SubChain(alone, msg);
    var c', d' := ExecCtx(sys, c, path).value.0, ExecCtx(sys, d, path).value.0;
    assert d'.parts == PutAt(c', at, i, p).parts;
  }

  /**
  A loop that nobody runs might as well be gone: every step that can be made where it is gone can be made
  where it is left alone, with the same outcome.
  */
  lemma {:induction false} LeftAlone(sys: System, c: Ctx, at: seq<nat>, i: nat, p: Part, path: seq<nat>)
    requires HasAt(c, at, i) && PartAt(c, at, i) == Gone && ExecCtx(sys, c, path).Some?
    ensures var (c', event) := ExecCtx(sys, c, path).value;
            && HasAt(c', at, i) && PartAt(c', at, i) == Gone
            && ExecCtx(sys, PutAt(c, at, i, p), path) == Some((PutAt(c', at, i, p), event))
    decreases |path|, 2
  {
    if at == [] {
      Beside(sys, c, i, p, path);
    } else if path[0] != at[0] {
      Beside(sys, c, at[0], PutAt(c, at, i, p).parts[at[0]], path);
    } else if c.parts[at[0]].Child? {
      AloneInChild(sys, c, at, i, p, path);
    } else {
      AloneInFlow(sys, c, at, i, p, path);
    }
  }

  /** The same for whole schedules of a run. */
  lemma {:induction false} RunLeftAlone(sys: System, run: Run, at: seq<nat>, i: nat, p: Part, schedule: seq<seq<nat>>)
    requires HasAt(run.root, at, i) && PartAt(run.root, at, i) == Gone && ExecAll(sys, run, schedule).Some?
    ensures var run' := ExecAll(sys, run, schedule).value;
            && HasAt(run'.root, at, i)
            && ExecAll(sys, run.(root := PutAt(run.root, at, i, p)), schedule) ==
               Some(run'.(root := PutAt(run'.root, at, i, p)))
    decreases |schedule|
  {
    if schedule == [] {
    } else {
      LeftAlone(sys, run.root, at, i, p, schedule[0]);
      RunLeftAlone(sys, ExecRun(sys, run, schedule[0]).value.0, at, i, p, schedule[1..]);
    }
  }

  // ---------- where a node fans out, some run completes early ----------

  /** The loop at `i` is not over although something it has submitted is outstanding. */
  ghost predicate HeldUp(c: Ctx, i: nat)
  {
    i < |c.parts| && c.parts[i].Loop? && c.parts[i].actions != [] && Outstanding(c) >= 1
  }

  lemma HeldUpGone(c: Ctx, i: nat)
    requires Inv(c) && HeldUp(c, i)
    ensures Inv(c.(parts := c.parts[i := Gone]))
  {
    var c' := c.(parts := c.parts[i := Gone]);
    SumAtLeast(TellerOf, c.parts, i);
    Replaced(c, i, Gone);
    forall q | q in c'.parts
      ensures InvPart(q)
    {
      assert q == Gone || q in c.parts;
    }
  }

  /** Without a loop that is held up, the counters still agree with the work that is left. */
  lemma {:induction false} InvWithout(c: Ctx, at: seq<nat>, i: nat)
    requires Inv(c) && HasAt(c, at, i) && HeldUp(CtxAt(c, at).value, i)
    ensures Inv(PutAt(c, at, i, Gone)) && PutAt(c, at, i, Gone).reports == c.reports
    decreases |at|
  {
    if at == [] {
      HeldUpGone(c, i);
    } else {
      var k := at[0];
      assert c.parts[k] in c.parts && InvPart(c.parts[k]);
      match c.parts[k] {
        case Child(d) => InvWithout(d, at[1..], i);
        case SubChain(run, _) => InvWithout(run.root, at[1..], i);
      }
      SamePart(c, k, PutAt(c, at, i, Gone).parts[k]);
    }
  }

  lemma {:induction false} NotQuietAt(c: Ctx, at: seq<nat>, i: nat)
    requires HasAt(c, at, i) && PartAt(c, at, i).Loop?
    ensures !Quiet(c)
    decreases |at|
  {
    if at == [] {
      assert c.parts[i] in c.parts && !QuietPart(c.parts[i]);
    } else {
      var p := c.parts[at[0]];
      match p {
        case Child(d) => NotQuietAt(d, at[1..], i);
        case SubChain(run, _) => NotQuietAt(run.root, at[1..], i);
      }
      assert p in c.parts && !QuietPart(p);
    }
  }

  /** Everything but the loop runs to its end, and the message completes with the loop not over. */
  lemma HeldUpCompletes(sys: System, rank: NodeRef -> nat, width: nat, run: Run, at: seq<nat>, i: nat)
    returns (schedule: seq<seq<nat>>)
    requires TellsOnce(sys) && Ranked(sys, rank) && TellsAtMost(sys, width) && InvRun(run)
    requires HasAt(run.root, at, i) && HeldUp(CtxAt(run.root, at).value, i)
    ensures ExecAll(sys, run, schedule).Some?
    ensures ExecAll(sys, run, schedule).value.fired == 1 && !Quiet(ExecAll(sys, run, schedule).value.root)
  {
    var loop := PartAt(run.root, at, i);
    var without := run.(root := PutAt(run.root, at, i, Gone));
    PutBack(run.root, at, i, Gone);
    InvWithout(run.root, at, i);
    schedule := CanFinish(sys, rank, width, without);
    RunLeftAlone(sys, without, at, i, loop, schedule);
    var last := ExecAll(sys, without, schedule).value;
    PutBack(last.root, at, i, loop);
    NotQuietAt(PutAt(last.root, at, i, loop), at, i);
  }

  /** A loop with at least two children to go. */
  ghost predicate WideAt(c: Ctx, at: seq<nat>, i: nat)
  {
    HasAt(c, at, i) && PartAt(c, at, i).Loop? && |PartAt(c, at, i).actions| >= 2
  }

  lemma WideCompletes(sys: System, rank: NodeRef -> nat, width: nat, run: Run, at: seq<nat>, i: nat)
    returns (schedule: seq<seq<nat>>)
    requires TellsOnce(sys) && Ranked(sys, rank) && TellsAtMost(sys, width) && InvRun(run) && WideAt(run.root, at, i)
    ensures ExecAll(sys, run, schedule).Some?
    ensures ExecAll(sys, run, schedule).value.fired == 1 && !Quiet(ExecAll(sys, run, schedule).value.root)
  {
    InvAt(run.root, at);
    var d := CtxAt(run.root, at).value;
    LoopHeldUp(d, i);
    assert ExecCtx(sys, d, [i]) == Some((ExecLoop(d, i), Tau));
    StepAt(sys, run.root, at, [i]);
    var step := at + [i];
    StepRunInv(sys, run, step);
    var run' := ExecRun(sys, run, step).value.0;
    var later := HeldUpCompletes(sys, rank, width, run', at, i);
    schedule := [step] + later;
    assert schedule[1..] == later;
  }

  lemma LoopHeldUp(c: Ctx, i: nat)
    requires Inv(c) && i < |c.parts| && c.parts[i].Loop? && |c.parts[i].actions| >= 2
    ensures HeldUp(ExecLoop(c, i), i)
  {
    assert c.parts[i] in c.parts;
    SumAtLeast(TellerOf, c.parts, i);
    assert TellerOk(c, c.parts[i]);
    var c' := ExecLoop(c, i);
    SumAtLeast(OutOf, c'.parts, |c.parts|);
  }

  // ---------- where no node fans out, every schedule is orderly ----------

  ghost predicate Thin(c: Ctx)
  {
    forall at, i :: !WideAt(c, at, i)
  }

  lemma ThinPart(c: Ctx, i: nat)
    requires Thin(c) && i < |c.parts|
    ensures c.parts[i].Loop? ==> |c.parts[i].actions| <= 1
    ensures c.parts[i].Child? ==> Thin(c.parts[i].ctx)
    ensures c.parts[i].SubChain? ==> Thin(c.parts[i].run.root)
  {
    assert !WideAt(c, [], i);
    if c.parts[i].Child? || c.parts[i].SubChain? {
      var d := if c.parts[i].Child? then c.parts[i].ctx else c.parts[i].run.root;
      forall at, k
        ensures !WideAt(d, at, k)
      {
        var longer := [i] + at;
        assert longer[1..] == at;
        assert CtxAt(c, longer) == CtxAt(d, at);
        assert !WideAt(c, longer, k);
      }
    }
  }

  lemma ActivateThin(sys: System, node: NodeRef, msg: RuleMsg)
    requires Activate(sys, node, msg).Child? ==> Thin(Activate(sys, node, msg).ctx)
    ensures NarrowPart(Activate(sys, node, msg))
  {
    var p := Activate(sys, node, msg);
    if p.Child? {
      ThinPart(p.ctx, 0);
      if p.ctx.parts[0].SubChain? {
        var f := sys.first(sys.flow(node).value).value;
        NewCtxNarrow(f, Pending(f, msg));
      }
      NewCtxNarrow(node, p.ctx.parts[0]);
    }
  }

  lemma {:induction false} StepStaysNarrow(sys: System, c: Ctx, path: seq<nat>)
    requires TellsOnce(sys) && Inv(c) && Narrow(c) && ExecCtx(sys, c, path).Some?
    requires Thin(ExecCtx(sys, c, path).value.0)
    ensures Narrow(ExecCtx(sys, c, path).value.0)
    decreases |path|, 0
  {
    var i, c' := path[0], ExecCtx(sys, c, path).value.0;
    var p := c.parts[i];
    assert p in c.parts && InvPart(p) && NarrowPart(p);
    ThinPart(c', i);
    match p
    case Pending(node, msg) =>
      ActivateThin(sys, node, msg);
      ActivateInv(sys, node, msg);
      ReplaceNarrow(c, i, Activate(sys, node, msg));
    case Loop(_, _, _) => LoopNarrow(c, i);
    case Ending(_, _, _) => ReplaceNarrow(c, i, Owed);
    case Owed => ReplaceNarrow(c, i, Gone);
    case Child(d) =>
      assert path == [i] + path[1..];
      ChildStaysNarrow(sys, c, i, path[1..]);
    case SubChain(run, msg) =>
      assert path == [i] + path[1..];
      FlowStaysNarrow(sys, c, i, path[1..]);
  }

  lemma {:induction false} ChildStaysNarrow(sys: System, c: Ctx, i: nat, path: seq<nat>)
    requires TellsOnce(sys) && Inv(c) && Narrow(c) && i < |c.parts| && c.parts[i].Child?
    requires ExecCtx(sys, c, [i] + path).Some? && Thin(ExecCtx(sys, c, [i] + path).value.0)
    ensures Narrow(ExecCtx(sys, c, [i] + path).value.0)
    decreases |path|, 1
  {
    var d := c.parts[i].ctx;
    assert ([i] + path)[1..] == path;
    ThinPart(ExecCtx(sys, c, [i] + path).value.0, i);
    assert c.parts[i] in c.parts && InvPart(c.parts[i]) && NarrowPart(c.parts[i]);
    NarrowNotPremature(d, path);
    StepInv(sys, d, path);
    StepStaysNarrow(sys, d, path);
    var (d', event) := ExecCtx(sys, d, path).value;
    ReplaceNarrow(c, i, Child(d'));
    if event == Report {
      Replaced(c, i, Child(d'));
      AppendNarrow(c.(parts := c.parts[i := Child(d')]), Owed);
    }
  }

  lemma {:induction false} FlowStaysNarrow(sys: System, c: Ctx, i: nat, path: seq<nat>)
    requires TellsOnce(sys) && Inv(c) && Narrow(c) && i < |c.parts| && c.parts[i].SubChain?
    requires ExecCtx(sys, c, [i] + path).Some? && Thin(ExecCtx(sys, c, [i] + path).value.0)
    ensures Narrow(ExecCtx(sys, c, [i] + path).value.0)
    decreases |path|, 1
  {
    var SubChain(run, msg) := c.parts[i];
    assert ([i] + path)[1..] == path;
    var c' := ExecCtx(sys, c, [i] + path).value.0;
    assert c.parts[i] in c.parts && InvPart(c.parts[i]) && NarrowPart(c.parts[i]);
    var (run', fires) := ExecRun(sys, run, path).value;
    ThinPart(c', i);
    NarrowNotPremature(run.root, path);
    StepRunInv(sys, run, path);
    StepStaysNarrow(sys, run.root, path);
    ReplaceNarrow(c, i, SubChain(run', msg));
    if fires {
      ThinPart(c', |c.parts|);
      Replaced(c, i, SubChain(run', msg));
      AppendNarrow(c.(parts := c.parts[i := SubChain(run', msg)]), FlowTell(sys, c.self, msg, run'.ended));
    }
  }

  /** No orderly schedule leads to a context that still has two children to submit. */
  ghost predicate NeverFansOut(sys: System, run: Run)
  {
    forall schedule :: Orderly(sys, run, schedule) && ExecAll(sys, run, schedule).Some? ==>
      Thin(ExecAll(sys, run, schedule).value.root)
  }

  ghost predicate AlwaysOrderly(sys: System, run: Run)
  {
    forall schedule :: ExecAll(sys, run, schedule).Some? ==> Orderly(sys, run, schedule)
  }

  lemma NeverFansOutNext(sys: System, run: Run, path: seq<nat>)
    requires NeverFansOut(sys, run) && ExecRun(sys, run, path).Some? && !Premature(run.root, path)
    ensures NeverFansOut(sys, ExecRun(sys, run, path).value.0) && Thin(ExecRun(sys, run, path).value.0.root)
  {
    var run' := ExecRun(sys, run, path).value.0;
    forall schedule | Orderly(sys, run', schedule) && ExecAll(sys, run', schedule).Some?
      ensures Thin(ExecAll(sys, run', schedule).value.root)
    {
      var longer := [path] + schedule;
      assert longer[1..] == schedule;
      assert Orderly(sys, run, longer);
    }
    assert Orderly(sys, run', []) && ExecAll(sys, run', []) == Some(run');
  }

  lemma {:induction false} ThinIsOrderly(sys: System, run: Run, schedule: seq<seq<nat>>)
    requires TellsOnce(sys) && InvRun(run) && Narrow(run.root) && NeverFansOut(sys, run)
    requires ExecAll(sys, run, schedule).Some?
    ensures Orderly(sys, run, schedule)
    decreases |schedule|
  {
    if schedule == [] {
    } else {
      NarrowNotPremature(run.root, schedule[0]);
      StepRunInv(sys, run, schedule[0]);
      NeverFansOutNext(sys, run, schedule[0]);
      StepStaysNarrow(sys, run.root, schedule[0]);
      ThinIsOrderly(sys, ExecRun(sys, run, schedule[0]).value.0, schedule[1..]);
    }
  }

  lemma {:induction false} ExecConcat(sys: System, run: Run, a: seq<seq<nat>>, b: seq<seq<nat>>)
    requires ExecAll(sys, run, a).Some?
    ensures ExecAll(sys, run, a + b) == ExecAll(sys, ExecAll(sys, run, a).value, b)
    decreases |a|
  {
    if a == [] {
      assert a + b == b;
    } else {
      ExecConcat(sys, ExecRun(sys, run, a[0]).value.0, a[1..], b);
      assert (a + b)[0] == a[0] && (a + b)[1..] == a[1..] + b;
    }
  }

  /** In no interleaving does the completion callback run with anything left to do. */
  ghost predicate NeverEarly(sys: System, run: Run)
  {
    forall schedule :: ExecAll(sys, run, schedule).Some? && ExecAll(sys, run, schedule).value.fired > 0 ==>
      Quiet(ExecAll(sys, run, schedule).value.root)
  }

  lemma FanOutIsEarly(sys: System, rank: NodeRef -> nat, width: nat, first: NodeRef, msg: RuleMsg)
    requires TellsOnce(sys) && Ranked(sys, rank) && TellsAtMost(sys, width)
    requires !NeverFansOut(sys, Start(first, msg))
    ensures !NeverEarly(sys, Start(first, msg))
  {
    var start := Start(first, msg);
    var schedule :| Orderly(sys, start, schedule) && ExecAll(sys, start, schedule).Some? &&
                    !Thin(ExecAll(sys, start, schedule).value.root);
    var run := ExecAll(sys, start, schedule).value;
    var at, i :| WideAt(run.root, at, i);
    StartInv(first, msg);
    RunInv(sys, start, schedule);
    var more := WideCompletes(sys, rank, width, run, at, i);
    ExecConcat(sys, start, schedule, more);
  }

  lemma OrderlyIsNotEarly(sys: System, first: NodeRef, msg: RuleMsg)
    requires TellsOnce(sys) && AlwaysOrderly(sys, Start(first, msg))
    ensures NeverEarly(sys, Start(first, msg))
  {
    forall schedule | ExecAll(sys, Start(first, msg), schedule).Some? &&
                      ExecAll(sys, Start(first, msg), schedule).value.fired > 0
      ensures Quiet(ExecAll(sys, Start(first, msg), schedule).value.root)
    {
      CompletionExact(sys, first, msg, schedule);
      FinishedQuiet(ExecAll(sys, Start(first, msg), schedule).value.root);
    }
  }

  /**
  The exact condition on a chain: no interleaving at all can make a message complete with something left to
  do, if and only if no run of it gets to a node that fans out; and then every schedule is orderly.
  */
  lemma NeverEarlyIff(sys: System, rank: NodeRef -> nat, width: nat, first: NodeRef, msg: RuleMsg)
    requires TellsOnce(sys) && Ranked(sys, rank) && TellsAtMost(sys, width)
    ensures NeverEarly(sys, Start(first, msg)) <==> NeverFansOut(sys, Start(first, msg))
    ensures AlwaysOrderly(sys, Start(first, msg)) <==> NeverFansOut(sys, Start(first, msg))
  {
    var start := Start(first, msg);
    if NeverFansOut(sys, start) {
      StartInv(first, msg);
      NewCtxNarrow(first, Pending(first, msg));
      forall schedule | ExecAll(sys, start, schedule).Some?
        ensures Orderly(sys, start, schedule)
      {
        ThinIsOrderly(sys, start, schedule);
      }
    } else {
      FanOutIsEarly(sys, rank, width, first, msg);
    }
    if AlwaysOrderly(sys, start) {
      OrderlyIsNotEarly(sys, first, msg);
    }
  }
}
