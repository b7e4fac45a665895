/** What every step keeps: counters, single reports, and completion as the very last event. */
module EngineSafety {
  import opened Messages
  import opened Sums
  import opened Engine

  /** Decrements that a part will still cause on the context holding it. */
  function OutOf(p: Part): nat
  {
    match p
    case Pending(_, _) => 1
    case Ending(_, _, _) => 1
    case Owed => 1
    case Child(d) => if d.reports == 0 then 1 else 0
    case _ => 0
  }

  /** 1 for a part that has still to tell on behalf of the context holding it. */
  function TellerOf(p: Part): nat
  {
    match p
    case Loop(_, _, _) => 1
    case SubChain(run, _) => if run.fired == 0 then 1 else 0
    case _ => 0
  }

  function Outstanding(c: Ctx): nat { Sum(OutOf, c.parts) }

  function Tellers(c: Ctx): nat { Sum(TellerOf, c.parts) }

  /** Either only children, or exactly one end: what one `tell` may do for the counters to balance. */
  predicate Balanced(actions: seq<Action>)
  {
    actions != [] && ((forall a :: a in actions ==> a.Spawn?) || |actions| == 1)
  }

  /** Every activation tells once, with relations that balance (one relation always does). */
  ghost predicate TellsOnce(sys: System)
  {
    forall node, msg :: sys.flow(node) == None && sys.behave(node, msg).Tells? ==>
      Balanced(Plan(sys, node, sys.behave(node, msg).relations))
  }

  ghost predicate TellerOk(c: Ctx, p: Part)
  {
    match p
    case Loop(_, _, actions) => Balanced(actions) && (actions[0].Finish? ==> Outstanding(c) == 0)
    case SubChain(run, _) => run.fired == 0 ==> Outstanding(c) == 0
    case _ => true
  }

  /** The counter of a context agrees with the work under it. */
  ghost predicate Counted(c: Ctx)
  {
    && (Tellers(c) > 0 ==>
          Tellers(c) == 1 && c.reports == 0 && c.waiting == Outstanding(c) &&
          forall p :: p in c.parts ==> TellerOk(c, p))
    && (Tellers(c) == 0 && c.reports == 0 ==>
          Outstanding(c) >= 1 &&
          (c.waiting == Outstanding(c) || (c.waiting == 0 && Outstanding(c) == 1)))
    && (c.reports > 0 ==> c.reports == 1 && Outstanding(c) == 0)
  }

  ghost predicate Inv(c: Ctx)
    decreases c
  {
    Counted(c) && forall p :: p in c.parts ==> InvPart(p)
  }

  ghost predicate InvPart(p: Part)
    decreases p
  {
    match p
    case Child(d) => Inv(d)
    case SubChain(run, _) => Inv(run.root) && run.fired == run.root.reports
    case _ => true
  }

  ghost predicate InvRun(run: Run)
  {
    Inv(run.root) && run.fired == run.root.reports
  }

  /** Nothing is left to do under `c`. */
  ghost predicate Quiet(c: Ctx)
    decreases c
  {
    forall p :: p in c.parts ==> QuietPart(p)
  }

  ghost predicate QuietPart(p: Part)
    decreases p
  {
    match p
    case Gone => true
    case Child(d) => Quiet(d)
    case SubChain(run, _) => Quiet(run.root)
    case _ => false
  }

  /** The step takes a counter to zero while the same context is still in its fan-out loop. */
  predicate Premature(c: Ctx, path: seq<nat>)
    decreases |path|
  {
    path != [] && path[0] < |c.parts| &&
    match c.parts[path[0]]
    case Owed => Tellers(c) > 0 && c.waiting <= 1
    case Child(d) => Premature(d, path[1..])
    case SubChain(run, _) => Premature(run.root, path[1..])
    case _ => false
  }

  // ---------- plans ----------

  lemma {:induction false} SpawnAllSpawns(targets: seq<NodeRef>, relation: string)
    ensures |SpawnAll(targets, relation)| == |targets|
    ensures forall a :: a in SpawnAll(targets, relation) ==> a.Spawn?
  {
    if targets == [] {
    } else {
      SpawnAllSpawns(targets[1..], relation);
    }
  }

  /** The number of children that a list of actions submits. */
  function Spawned(actions: seq<Action>): nat
  {
    if actions == [] then 0 else (if actions[0].Spawn? then 1 else 0) + Spawned(actions[1..])
  }

  lemma {:induction false} SpawnAllIndex(targets: seq<NodeRef>, relation: string)
    ensures |SpawnAll(targets, relation)| == |targets| == Spawned(SpawnAll(targets, relation))
    ensures forall i :: 0 <= i < |targets| ==> SpawnAll(targets, relation)[i] == Spawn(targets[i], relation)
  {
    if targets == [] {
    } else {
      SpawnAllIndex(targets[1..], relation);
    }
  }

  lemma {:induction false} SpawnedConcat(a: seq<Action>, b: seq<Action>)
    ensures Spawned(a + b) == Spawned(a) + Spawned(b)
  {
    if a == [] {
      assert a + b == b;
    } else {
      SpawnedConcat(a[1..], b);
      assert (a + b)[1..] == a[1..] + b;
    }
  }

  lemma {:induction false} PlanEachSnoc(sys: System, self: NodeRef, names: seq<string>, name: string)
    ensures PlanEach(sys, self, names + [name]) == PlanEach(sys, self, names) + PlanOne(sys, self, name)
  {
    if names == [] {
      assert PlanEach(sys, self, []) == [];
      assert names + [name] == [name] && [name][1..] == [];
    } else {
      PlanEachSnoc(sys, self, names[1..], name);
      assert (names + [name])[1..] == names[1..] + [name];
    }
  }

  lemma PlanOneBalanced(sys: System, self: NodeRef, relation: string)
    ensures Balanced(Plan(sys, self, Given([relation])))
  {
    assert PlanEach(sys, self, [relation]) == PlanOne(sys, self, relation) + PlanEach(sys, self, []);
    SpawnAllSpawns(Targets(sys.routes(self), relation), relation);
  }

  // ---------- one step ----------

  lemma NewCtxInv(self: NodeRef, p: Part)
    requires p.Loop? ==> Balanced(p.actions)
    requires p.SubChain? ==> p.run.fired == 0
    requires InvPart(p) && OutOf(p) + TellerOf(p) == 1
    ensures Inv(NewCtx(self, p)) && NewCtx(self, p).reports == 0
  {
    var c := NewCtx(self, p);
    assert c.parts == [p];
    SumOne(OutOf, p);
    SumOne(TellerOf, p);
  }

  lemma StartInv(first: NodeRef, msg: RuleMsg)
    ensures InvRun(Start(first, msg))
  {
    NewCtxInv(first, Pending(first, msg));
  }

  lemma ActivateInv(sys: System, node: NodeRef, msg: RuleMsg)
    requires TellsOnce(sys)
    ensures InvPart(Activate(sys, node, msg))
    ensures OutOf(Activate(sys, node, msg)) == 1 && TellerOf(Activate(sys, node, msg)) == 0
  {
    match sys.flow(node)
    case None =>
      if sys.behave(node, msg).Tells? {
        var Tells(out, err, relations) := sys.behave(node, msg);
        NewCtxInv(node, Loop(out, err, Plan(sys, node, relations)));
      }
    case Some(chainId) =>
      match sys.first(chainId)
      case None =>
        PlanOneBalanced(sys, node, FAILURE);
        NewCtxInv(node, Loop(msg, NotFound(chainId), Plan(sys, node, Given([FAILURE]))));
      case Some(f) =>
        StartInv(f, msg);
        NewCtxInv(node, SubChain(Start(f, msg), msg));
  }

  /** Replacing one part changes the two totals by the difference of that part. */
  lemma Replaced(c: Ctx, i: nat, p: Part)
    requires i < |c.parts|
    ensures Sum(OutOf, c.parts[i := p]) == Outstanding(c) - OutOf(c.parts[i]) + OutOf(p)
    ensures Sum(TellerOf, c.parts[i := p]) == Tellers(c) - TellerOf(c.parts[i]) + TellerOf(p)
    ensures Outstanding(c) >= OutOf(c.parts[i]) && Tellers(c) >= TellerOf(c.parts[i])
  {
    SumUpdate(OutOf, c.parts, i, p);
    SumUpdate(TellerOf, c.parts, i, p);
    SumAtLeast(OutOf, c.parts, i);
    SumAtLeast(TellerOf, c.parts, i);
  }

  lemma Appended(parts: seq<Part>, p: Part)
    ensures Sum(OutOf, parts + [p]) == Sum(OutOf, parts) + OutOf(p)
    ensures Sum(TellerOf, parts + [p]) == Sum(TellerOf, parts) + TellerOf(p)
  {
    SumAppend(OutOf, parts, p);
    SumAppend(TellerOf, parts, p);
  }

  /** A context with one teller has no other part that tells. */
  lemma OnlyTeller(c: Ctx, i: nat, j: nat)
    requires i < |c.parts| && j < |c.parts| && i != j
    requires Tellers(c) == 1 && TellerOf(c.parts[i]) == 1
    ensures TellerOf(c.parts[j]) == 0
  {
    if i < j {
      SumAtLeastTwo(TellerOf, c.parts, i, j);
    } else {
      SumAtLeastTwo(TellerOf, c.parts, j, i);
    }
  }

  /** A step that keeps both totals and every teller keeps the invariant. */
  lemma SamePart(c: Ctx, i: nat, p: Part)
    requires Inv(c) && i < |c.parts| && InvPart(p)
    requires OutOf(p) == OutOf(c.parts[i]) && TellerOf(p) == TellerOf(c.parts[i]) && !p.Loop?
    requires p.SubChain? ==> c.parts[i].SubChain?
    ensures Inv(c.(parts := c.parts[i := p]))
  {
    Replaced(c, i, p);
    var c' := c.(parts := c.parts[i := p]);
    assert Outstanding(c') == Outstanding(c) && Tellers(c') == Tellers(c);
    assert c.parts[i] in c.parts;
    forall q | q in c'.parts
      ensures InvPart(q) && (Tellers(c') > 0 ==> TellerOk(c', q))
    {
      if Tellers(c) > 0 {
        assert TellerOk(c, if q in c.parts then q else c.parts[i]);
      }
    }
  }

  lemma LoopInv(c: Ctx, i: nat)
    requires Inv(c) && i < |c.parts| && c.parts[i].Loop? && c.parts[i].actions != []
    ensures Inv(ExecLoop(c, i)) && ExecLoop(c, i).reports == c.reports
  {
    var Loop(msg, err, actions) := c.parts[i];
    assert c.parts[i] in c.parts;
    var c' := ExecLoop(c, i);
    var rest := if |actions| == 1 then Gone else Loop(msg, err, actions[1..]);
    var last := c'.parts[|c'.parts| - 1];
    Replaced(c, i, rest);
    Appended(c.parts[i := rest], last);
    assert TellerOk(c, c.parts[i]);
    assert Outstanding(c') == Outstanding(c) + 1;
    forall p | p in c'.parts
      ensures InvPart(p) && (Tellers(c') > 0 ==> TellerOk(c', p))
    {
      var j :| 0 <= j < |c'.parts| && c'.parts[j] == p;
      if j < |c.parts| && j != i {
        assert p in c.parts;
        OnlyTeller(c, i, j);
      } else if j == i && |actions| > 1 {
        assert forall a :: a in actions[1..] ==> a in actions;
        assert actions[1] in actions;
      }
    }
  }

  lemma DoneInv(c: Ctx, i: nat)
    requires Inv(c) && i < |c.parts| && c.parts[i].Owed?
    requires !(Tellers(c) > 0 && c.waiting <= 1)
    ensures var (c', event) := ExecDone(c, i);
            Inv(c') && c.reports == 0 && (c'.reports == 1 <==> event == Report)
  {
    var c' := ExecDone(c, i).0;
    Replaced(c, i, Gone);
    assert Outstanding(c') == Outstanding(c) - 1 && Tellers(c') == Tellers(c);
    forall p | p in c'.parts
      ensures InvPart(p) && (Tellers(c') > 0 ==> TellerOk(c', p))
    {
      if p in c.parts {
        assert InvPart(p);
        if Tellers(c) > 0 {
          assert TellerOk(c, p);
        }
      }
    }
  }

  /** A child that reports leaves its parent owing one decrement in its place. */
  lemma ChildReportInv(c: Ctx, i: nat, d': Ctx)
    requires Inv(c) && i < |c.parts| && c.parts[i].Child? && c.parts[i].ctx.reports == 0
    requires Inv(d') && d'.reports == 1
    ensures Inv(c.(parts := c.parts[i := Child(d')] + [Owed]))
  {
    var c' := c.(parts := c.parts[i := Child(d')] + [Owed]);
    Replaced(c, i, Child(d'));
    Appended(c.parts[i := Child(d')], Owed);
    assert Outstanding(c') == Outstanding(c) && Tellers(c') == Tellers(c);
    forall p | p in c'.parts
      ensures InvPart(p) && (Tellers(c') > 0 ==> TellerOk(c', p))
    {
      if p in c.parts && Tellers(c) > 0 {
        assert TellerOk(c, p);
      }
    }
  }

  /** A completed sub-chain hands the duty to tell over to the flow node's own `tell`. */
  lemma FlowInv(sys: System, c: Ctx, i: nat, run': Run)
    requires Inv(c) && i < |c.parts| && c.parts[i].SubChain? && c.parts[i].run.fired == 0
    requires InvRun(run') && run'.fired == 1
    ensures var msg := c.parts[i].msg;
            var told := FlowTell(sys, c.self, msg, run'.ended);
            Inv(c.(parts := c.parts[i := SubChain(run', msg)] + [told]))
  {
    var p := SubChain(run', c.parts[i].msg);
    var told := FlowTell(sys, c.self, c.parts[i].msg, run'.ended);
    var c' := c.(parts := c.parts[i := p] + [told]);
    Replaced(c, i, p);
    Appended(c.parts[i := p], told);
    PlanOneBalanced(sys, c.self, SUCCESS);
    assert c.parts[i] in c.parts;
    assert TellerOk(c, c.parts[i]);
    forall q | q in c'.parts
      ensures InvPart(q) && (Tellers(c') > 0 ==> TellerOk(c', q))
    {
      var j :| 0 <= j < |c'.parts| && c'.parts[j] == q;
      if j < |c.parts| && j != i {
        assert q in c.parts;
        OnlyTeller(c, i, j);
      }
    }
  }

  /** What a step promises about the context it ran in. */
  ghost predicate Kept(c: Ctx, c': Ctx, event: Label)
  {
    Inv(c') && (if event == Report then c.reports == 0 && c'.reports == 1 else c'.reports == c.reports)
  }

  lemma LeafStep(sys: System, c: Ctx, path: seq<nat>)
    requires TellsOnce(sys) && Inv(c)
    requires ExecCtx(sys, c, path).Some? && !Premature(c, path)
    requires !c.parts[path[0]].Child? && !c.parts[path[0]].SubChain?
    ensures Kept(c, ExecCtx(sys, c, path).value.0, ExecCtx(sys, c, path).value.1)
  {
    var i := path[0];
    match c.parts[i]
    case Pending(node, msg) =>
      ActivateInv(sys, node, msg);
      SamePart(c, i, Activate(sys, node, msg));
    case Loop(_, _, _) => LoopInv(c, i);
    case Ending(_, _, _) => SamePart(c, i, Owed);
    case Owed => DoneInv(c, i);
  }

  lemma ChildStep(c: Ctx, i: nat, d': Ctx, event: Label)
    requires Inv(c) && i < |c.parts| && c.parts[i].Child? && Kept(c.parts[i].ctx, d', event)
    ensures event == Report ==> Inv(c.(parts := c.parts[i := Child(d')] + [Owed]))
    ensures event != Report ==> Inv(c.(parts := c.parts[i := Child(d')]))
  {
    if event == Report {
      ChildReportInv(c, i, d');
    } else {
      SamePart(c, i, Child(d'));
    }
  }

  /** Every step that is not premature keeps the invariant, and a context reports only once. */
  lemma {:induction false} StepInv(sys: System, c: Ctx, path: seq<nat>)
    requires TellsOnce(sys) && Inv(c)
    requires ExecCtx(sys, c, path).Some? && !Premature(c, path)
    ensures Kept(c, ExecCtx(sys, c, path).value.0, ExecCtx(sys, c, path).value.1)
    decreases |path|, 0
  {
    var i := path[0];
    var p := c.parts[i];
    assert p in c.parts && InvPart(p);
    if p.Child? {
      StepInv(sys, p.ctx, path[1..]);
      var (d', event) := ExecCtx(sys, p.ctx, path[1..]).value;
      ChildStep(c, i, d', event);
    } else if p.SubChain? {
      StepRunInv(sys, p.run, path[1..]);
      var (run', fires) := ExecRun(sys, p.run, path[1..]).value;
      if fires {
        FlowInv(sys, c, i, run');
      } else {
        SamePart(c, i, SubChain(run', p.msg));
      }
    } else {
      LeafStep(sys, c, path);
    }
  }

  lemma {:induction false} StepRunInv(sys: System, run: Run, path: seq<nat>)
    requires TellsOnce(sys) && InvRun(run)
    requires ExecRun(sys, run, path).Some? && !Premature(run.root, path)
    ensures var (run', fires) := ExecRun(sys, run, path).value;
            InvRun(run') && run'.fired == run.fired + (if fires then 1 else 0)
    decreases |path|, 1
  {
    StepInv(sys, run.root, path);
  }

  // ---------- completion ----------

  /** Everything under `c` is over, and every context under it has reported exactly once. */
  ghost predicate Finished(c: Ctx)
    decreases c
  {
    c.reports == 1 && forall p :: p in c.parts ==> FinishedPart(p)
  }

  ghost predicate FinishedPart(p: Part)
    decreases p
  {
    match p
    case Gone => true
    case Child(d) => Finished(d)
    case SubChain(run, _) => run.fired == 1 && Finished(run.root)
    case _ => false
  }

  /** A context reports to its parent only when nothing is left under it. */
  lemma {:induction false} ReportedFinished(c: Ctx)
    requires Inv(c) && c.reports > 0
    ensures Finished(c)
    decreases c
  {
    forall p | p in c.parts
      ensures FinishedPart(p)
    {
      var i :| 0 <= i < |c.parts| && c.parts[i] == p;
      SumAtLeast(OutOf, c.parts, i);
      SumAtLeast(TellerOf, c.parts, i);
      assert InvPart(p);
      match p
      case Child(d) => ReportedFinished(d);
      case SubChain(run, _) => ReportedFinished(run.root);
      case _ =>
    }
  }

  lemma {:induction false} FinishedQuiet(c: Ctx)
    requires Finished(c)
    ensures Quiet(c)
    decreases c
  {
    forall p | p in c.parts
      ensures QuietPart(p)
    {
      assert FinishedPart(p);
      match p
      case Child(d) => FinishedQuiet(d);
      case SubChain(run, _) => FinishedQuiet(run.root);
      case _ =>
    }
  }

  lemma {:induction false} QuietStops(sys: System, c: Ctx, path: seq<nat>)
    requires Quiet(c)
    ensures ExecCtx(sys, c, path) == None
    decreases |path|
  {
    if path == [] || path[0] >= |c.parts| {
    } else {
      var p := c.parts[path[0]];
      assert p in c.parts && QuietPart(p);
      match p
      case Child(d) => QuietStops(sys, d, path[1..]);
      case SubChain(run, _) => QuietStops(sys, run.root, path[1..]);
      case _ =>
    }
  }

  /** Until a context has reported, some step under it is possible, and not a premature one. */
  lemma {:induction false} Progress(sys: System, c: Ctx) returns (path: seq<nat>)
    requires Inv(c) && c.reports == 0
    ensures ExecCtx(sys, c, path).Some? && !Premature(c, path)
    decreases c
  {
    var i: nat;
    if Tellers(c) > 0 {
      i := SumPositive(TellerOf, c.parts);
    } else {
      i := SumPositive(OutOf, c.parts);
    }
    var p := c.parts[i];
    assert p in c.parts && InvPart(p);
    if p.Child? {
      var deeper := Progress(sys, p.ctx);
      path := [i] + deeper;
      assert path[1..] == deeper;
    } else if p.SubChain? {
      var deeper := Progress(sys, p.run.root);
      path := [i] + deeper;
      assert path[1..] == deeper;
    } else {
      assert p.Loop? ==> TellerOk(c, p);
      path := [i];
    }
  }

  // ---------- whole runs ----------

  /** The schedule is possible and never makes a premature step. */
  ghost predicate Orderly(sys: System, run: Run, schedule: seq<seq<nat>>)
    decreases |schedule|
  {
    schedule == [] ||
    (ExecRun(sys, run, schedule[0]).Some? && !Premature(run.root, schedule[0]) &&
     Orderly(sys, ExecRun(sys, run, schedule[0]).value.0, schedule[1..]))
  }

  lemma {:induction false} RunInv(sys: System, run: Run, schedule: seq<seq<nat>>)
    requires TellsOnce(sys) && InvRun(run) && Orderly(sys, run, schedule)
    ensures ExecAll(sys, run, schedule).Some? && InvRun(ExecAll(sys, run, schedule).value)
    decreases |schedule|
  {
    if schedule == [] {
    } else {
      StepRunInv(sys, run, schedule[0]);
      RunInv(sys, ExecRun(sys, run, schedule[0]).value.0, schedule[1..]);
    }
  }

  /**
  Completion is exact. After any orderly schedule, either the completion callback has run exactly once,
  every context has reported exactly once and no step is left, or it has not run and some step is
  possible: it never fires early, never twice, and never gets lost.
  */
  lemma CompletionExact(sys: System, first: NodeRef, msg: RuleMsg, schedule: seq<seq<nat>>)
    requires TellsOnce(sys) && Orderly(sys, Start(first, msg), schedule)
    ensures ExecAll(sys, Start(first, msg), schedule).Some?
    ensures var run := ExecAll(sys, Start(first, msg), schedule).value;
            if run.fired > 0
            then run.fired == 1 && Finished(run.root) && forall path :: ExecRun(sys, run, path) == None
            else exists path :: ExecRun(sys, run, path).Some? && !Premature(run.root, path)
  {
    StartInv(first, msg);
    RunInv(sys, Start(first, msg), schedule);
    var run := ExecAll(sys, Start(first, msg), schedule).value;
    if run.fired > 0 {
      ReportedFinished(run.root);
      FinishedQuiet(run.root);
      forall path
        ensures ExecRun(sys, run, path) == None
      {
        QuietStops(sys, run.root, path);
      }
    } else {
      var path := Progress(sys, run.root);
      assert ExecRun(sys, run, path).Some?;
    }
  }

  // ---------- exactly which schedules are safe ----------

  /** No context anywhere has reported while something is left under it. */
  ghost predicate Sound(c: Ctx)
    decreases c
  {
    (c.reports > 0 ==> Quiet(c)) && forall p :: p in c.parts ==> SoundPart(p)
  }

  ghost predicate SoundPart(p: Part)
    decreases p
  {
    match p
    case Child(d) => Sound(d)
    case SubChain(run, _) => Sound(run.root)
    case _ => true
  }

  lemma {:induction false} InvSound(c: Ctx)
    requires Inv(c)
    ensures Sound(c)
    decreases c
  {
    if c.reports > 0 {
      ReportedFinished(c);
      FinishedQuiet(c);
    }
    forall p | p in c.parts
      ensures SoundPart(p)
    {
      assert InvPart(p);
      match p
      case Child(d) => InvSound(d);
      case SubChain(run, _) => InvSound(run.root);
      case _ =>
    }
  }

  /** A premature decrement reports while the fan-out loop of the same context is still going. */
  lemma PrematureHere(c: Ctx, i: nat)
    requires Inv(c) && i < |c.parts| && c.parts[i].Owed? && Tellers(c) > 0 && c.waiting <= 1
    ensures !Sound(ExecDone(c, i).0)
  {
    var j := SumPositive(TellerOf, c.parts);
    assert c.parts[j] in c.parts && TellerOk(c, c.parts[j]);
    SumAtLeast(OutOf, c.parts, i);
    var c' := ExecDone(c, i).0;
    assert c'.parts[j] == c.parts[j] && c'.parts[j] in c'.parts;
    assert !QuietPart(c'.parts[j]);
  }

  lemma {:induction false} PrematureUnsound(sys: System, c: Ctx, path: seq<nat>)
    requires Inv(c) && ExecCtx(sys, c, path).Some? && Premature(c, path)
    ensures !Sound(ExecCtx(sys, c, path).value.0)
    decreases |path|
  {
    var i := path[0];
    var p := c.parts[i];
    assert p in c.parts && InvPart(p);
    var c' := ExecCtx(sys, c, path).value.0;
    match p
    case Owed => PrematureHere(c, i);
    case Child(d) =>
      PrematureUnsound(sys, d, path[1..]);
      assert c'.parts[i] == Child(ExecCtx(sys, d, path[1..]).value.0);
      assert c'.parts[i] in c'.parts && !SoundPart(c'.parts[i]);
    case SubChain(run, msg) =>
      PrematureUnsound(sys, run.root, path[1..]);
      assert c'.parts[i] == SubChain(ExecRun(sys, run, path[1..]).value.0, msg);
      assert c'.parts[i] in c'.parts && !SoundPart(c'.parts[i]);
  }

  ghost predicate AlwaysSound(sys: System, run: Run, schedule: seq<seq<nat>>)
    decreases |schedule|
  {
    Sound(run.root) &&
    (schedule == [] ||
     (ExecRun(sys, run, schedule[0]).Some? &&
      AlwaysSound(sys, ExecRun(sys, run, schedule[0]).value.0, schedule[1..])))
  }

  lemma {:induction false} SoundIffOrderly(sys: System, run: Run, schedule: seq<seq<nat>>)
    requires TellsOnce(sys) && InvRun(run) && ExecAll(sys, run, schedule).Some?
    ensures AlwaysSound(sys, run, schedule) <==> Orderly(sys, run, schedule)
    decreases |schedule|
  {
    InvSound(run.root);
    if schedule == [] {
    } else {
      var run' := ExecRun(sys, run, schedule[0]).value.0;
      if Premature(run.root, schedule[0]) {
        PrematureUnsound(sys, run.root, schedule[0]);
        assert !AlwaysSound(sys, run', schedule[1..]);
      } else {
        StepRunInv(sys, run, schedule[0]);
        SoundIffOrderly(sys, run', schedule[1..]);
      }
    }
  }

  /**
  The exact assumption on interleavings: a run is sound in all of its states if and only if no
  decrement ever takes a counter to zero inside the fan-out loop of its own context.
  */
  lemma SafeSchedules(sys: System, first: NodeRef, msg: RuleMsg, schedule: seq<seq<nat>>)
    requires TellsOnce(sys) && ExecAll(sys, Start(first, msg), schedule).Some?
    ensures AlwaysSound(sys, Start(first, msg), schedule) <==> Orderly(sys, Start(first, msg), schedule)
  {
    StartInv(first, msg);
    SoundIffOrderly(sys, Start(first, msg), schedule);
  }
}
