/**
The context object that a node tells through: its counter, its `tell` loops, and the message copies
they submit. Metadata are heap objects here, because nodes write into them in place.
*/
module RuleContexts {
  import opened Messages
  import opened Engine
  import Safety = EngineSafety

  class Metadata {
    var values: map<string, string>

    constructor (values: map<string, string>)
      ensures this.values == values
    {
      this.values := values;
    }

    method PutValue(key: string, value: string)
      modifies this
      ensures values == if key == "" then old(values) else old(values)[key := value]
    {
      if key != "" {
        values := values[key := value];
      }
    }
  }

  /** Copies entry by entry into a new map, in whatever order the map is iterated. */
  method BuildMetadata(data: Metadata) returns (copy: Metadata)
    ensures fresh(copy) && copy.values == data.values
  {
    copy := new Metadata(map[]);
    var left := data.values.Keys;
    while left != {}
      invariant fresh(copy) && left <= data.values.Keys
      invariant copy.values.Keys == data.values.Keys - left
      invariant forall k :: k in copy.values ==> copy.values[k] == data.values[k]
      decreases |left|
    {
      var key :| key in left;
      copy.values := copy.values[key := data.values[key]];
      left := left - {key};
    }
  }

  /** A message in flight: a value with a shared, mutable metadata map. */
  datatype Envelope = Envelope(ts: int, id: string, dataType: DataType, kind: string, data: string, metadata: Metadata)
  {
    ghost function Value(): RuleMsg
      reads metadata
    {
      RuleMsg(ts, id, dataType, kind, data, metadata.values)
    }

    /** Made by `NewMsg`, which never leaves the id or the time stamp out; `Copy` keeps such a message. */
    predicate Stamped()
    {
      ts > 0 && id != ""
    }
  }

  /** `now` and `uuid` replace a missing time stamp or id. */
  method CopyMsg(msg: Envelope, now: int, uuid: string) returns (copy: Envelope)
    ensures fresh(copy.metadata) && copy.metadata.values == msg.metadata.values
    ensures msg.Stamped() ==> copy == msg.(metadata := copy.metadata)
    ensures now > 0 && uuid != "" ==> copy.Stamped()
  {
    var metadata := BuildMetadata(msg.metadata);
    copy := Envelope(if msg.ts <= 0 then now else msg.ts, if msg.id == "" then uuid else msg.id,
                     msg.dataType, msg.kind, msg.data, metadata);
  }

  datatype Task =
    | NodeTask(ctx: RuleContext, msg: Envelope, node: NodeRef)
    | EndTask(ctx: RuleContext, msg: Envelope, err: Option<string>, relation: string)

  class TaskPool {
    var tasks: seq<Task>

    constructor ()
      ensures tasks == []
    {
      tasks := [];
    }
  }

  /** Every pending task has a metadata map of its own. */
  predicate Separate(tasks: seq<Task>)
  {
    forall i, j :: 0 <= i < j < |tasks| ==> tasks[i].msg.metadata != tasks[j].msg.metadata
  }

  predicate Holds(tasks: seq<Task>, metadata: Metadata)
  {
    exists i :: 0 <= i < |tasks| && tasks[i].msg.metadata == metadata
  }

  /** `task` is what one action of a tell submits. */
  ghost predicate Realises(task: Task, ctx: RuleContext, action: Action, msg: Envelope, err: Option<string>)
    reads task.msg.metadata, msg.metadata
  {
    match action
    case Spawn(target, _) =>
      CopyFor(task, ctx, target, msg)
    case Finish(relation) => task == EndTask(ctx, msg, err, relation)
  }

  function Finishes(actions: seq<Action>): nat
  {
    if actions == [] then 0 else (if actions[0].Finish? then 1 else 0) + Finishes(actions[1..])
  }

  /** One call of `childDone` on a line of counters: each that drops to zero passes the call on. */
  function Bubble(counters: seq<int>): seq<int>
  {
    if counters == [] then []
    else if counters[0] - 1 <= 0 then [counters[0] - 1] + Bubble(counters[1..])
    else [counters[0] - 1] + counters[1..]
  }

  /** The call passes every counter of the line, so the run completes. */
  predicate Passes(counters: seq<int>)
  {
    counters == [] || (counters[0] - 1 <= 0 && Passes(counters[1..]))
  }

  /** A task for `node` with a copy of `msg`. */
  ghost predicate CopyFor(task: Task, ctx: RuleContext, node: NodeRef, msg: Envelope)
    reads task.msg.metadata, msg.metadata
  {
    task == NodeTask(ctx, task.msg, node) && task.msg.Value() == msg.Value()
  }

  /** A copy says the same in every field. */
  lemma CopyIsExact(task: Task, ctx: RuleContext, node: NodeRef, msg: Envelope)
    requires CopyFor(task, ctx, node, msg)
    ensures task.NodeTask? && task.ctx == ctx && task.node == node
    ensures task.msg.id == msg.id && task.msg.ts == msg.ts && task.msg.kind == msg.kind
    ensures task.msg.dataType == msg.dataType && task.msg.data == msg.data
    ensures task.msg.metadata.values == msg.metadata.values
  {
    assert task.msg.Value() == msg.Value();
  }

  /** What an action of a tell submits: a task for the child on a copy, or an end task with all that was told. */
  lemma RealisesExactly(task: Task, ctx: RuleContext, action: Action, msg: Envelope, err: Option<string>)
    requires Realises(task, ctx, action, msg, err)
    ensures task.ctx == ctx && (task.NodeTask? <==> action.Spawn?)
    ensures action.Spawn? ==> task.node == action.target && task.msg.Value() == msg.Value()
    ensures action.Finish? ==> task.msg == msg && task.err == err && task.relation == action.relation
  {
  }

  twostate predicate FreshAfter(new tasks: seq<Task>, n: nat)
  {
    forall i :: n <= i < |tasks| && tasks[i].NodeTask? ==> fresh(tasks[i].msg.metadata)
  }

  /** From `n` on, only end tasks can share a metadata map. */
  predicate Apart(tasks: seq<Task>, n: nat)
  {
    forall i, j :: n <= i < j < |tasks| && tasks[i].msg.metadata == tasks[j].msg.metadata ==>
      tasks[i].EndTask? && tasks[j].EndTask?
  }

  /** One atomic decrement of the step machine is one link of an uninterrupted `childDone`. */
  lemma StepIsLink(c: Ctx, i: nat, above: seq<int>)
    requires i < |c.parts|
    ensures var (c', event) := ExecDone(c, i);
            Bubble([c.waiting] + above) ==
            [c'.waiting] + (if event == Report then Bubble(above) else above)
    ensures Passes([c.waiting] + above) <==> ExecDone(c, i).1 == Report && Passes(above)
  {
    assert ([c.waiting] + above)[1..] == above;
  }

  /** Tasks from `n` on are the ones that the actions of a tell submit, in order. */
  ghost predicate Submitted(tasks: seq<Task>, n: nat, ctx: RuleContext, actions: seq<Action>,
                            msg: Envelope, err: Option<string>)
    reads set t <- tasks :: t.msg.metadata, msg.metadata
  {
    && |tasks| == n + |actions|
    && (forall i :: n <= i < |tasks| ==> Realises(tasks[i], ctx, actions[i - n], msg, err))
    && Apart(tasks, n)
  }

  class RuleContext {
    const self: NodeRef
    const parent: RuleContext?
    const pool: TaskPool
    ghost const depth: nat
    var waitingCount: int
    var completedDone: bool
    var completions: nat

    constructor (self: NodeRef, parent: RuleContext?, pool: TaskPool)
      requires parent != null ==> parent.Linked()
      ensures this.self == self && this.parent == parent && this.pool == pool
      ensures waitingCount == 0 && !completedDone && completions == 0 && Linked()
    {
      this.self, this.parent, this.pool := self, parent, pool;
      this.depth := if parent == null then 0 else parent.depth + 1;
      waitingCount, completedDone, completions := 0, false, 0;
    }

    ghost predicate Linked()
      decreases depth
    {
      parent != null ==> parent.depth < depth && parent.Linked()
    }

    /** This context and all above it. */
    ghost function Line(): set<RuleContext>
      requires Linked()
      decreases depth
    {
      {this} + (if parent == null then {} else parent.Line())
    }

    /** The counters from this context up to the root. */
    ghost function Counters(): seq<int>
      requires Linked()
      reads Line()
      decreases depth
    {
      [waitingCount] + (if parent == null then [] else parent.Counters())
    }

    ghost function Root(): RuleContext
      requires Linked()
      decreases depth
    {
      if parent == null then this else parent.Root()
    }

    lemma AboveIsNotHere()
      requires Linked() && parent != null
      ensures this !in parent.Line() && parent.Root() in parent.Line()
    {
      parent.LineBelow();
    }

    lemma {:induction false} LineBelow()
      requires Linked()
      ensures forall c :: c in Line() ==> c.depth <= depth
      ensures Root() in Line()
      decreases depth
    {
      if parent == null {
      } else {
        parent.LineBelow();
      }
    }

    /** All contexts up to the root exist. */
    lemma {:induction false} LineExists()
      requires Linked()
      ensures forall c :: c in Line() ==> allocated(c)
      decreases depth
    {
      if parent == null {
      } else {
        parent.LineExists();
      }
    }

    method ChildReady()
      modifies this`waitingCount
      ensures waitingCount == old(waitingCount) + 1
    {
      waitingCount := waitingCount + 1;
    }

    method Decrement()
      requires Linked()
      modifies this`waitingCount
      ensures old(Counters()) != [] && waitingCount == old(Counters())[0] - 1
      ensures old(Counters())[1..] == if parent == null then [] else parent.Counters()
      ensures Root().completedDone == old(Root().completedDone) && Root().completions == old(Root().completions)
    {
      if parent != null {
        AboveIsNotHere();
      }
      waitingCount := waitingCount - 1;
    }

    /** Only the root has a completion callback; the flag keeps it from being called again. */
    method ChildDone()
      requires Linked()
      modifies Line()
      ensures Counters() == Bubble(old(Counters()))
      ensures Root().completedDone == (old(Root().completedDone) || Passes(old(Counters())))
      ensures Root().completions ==
              old(Root().completions) +
              (if Passes(old(Counters())) && !old(Root().completedDone) then 1 else 0)
      decreases depth
    {
      Decrement();
      if parent != null {
        AboveIsNotHere();
      } else {
        assert old(Counters())[1..] == [];
      }
      if waitingCount <= 0 {
        if parent != null {
          parent.ChildDone();
        } else if !completedDone {
          completedDone := true;
          completions := completions + 1;
        }
      }
    }

    method DoOnEnd(msg: Envelope, err: Option<string>, relation: string)
      modifies pool`tasks
      ensures pool.tasks == old(pool.tasks) + [EndTask(this, msg, err, relation)]
    {
      pool.tasks := pool.tasks + [EndTask(this, msg, err, relation)];
    }

    /** The root submits its own node, on a copy, and does not count it. */
    method TellFirst(msg: Envelope, now: int, uuid: string)
      modifies pool`tasks
      ensures |pool.tasks| == |old(pool.tasks)| + 1 && old(pool.tasks) <= pool.tasks
      ensures pool.tasks[|old(pool.tasks)|].NodeTask? && pool.tasks[|old(pool.tasks)|].ctx == this
      ensures pool.tasks[|old(pool.tasks)|].node == self
      ensures FreshAfter(pool.tasks, |old(pool.tasks)|)
      ensures msg.Stamped() ==> pool.tasks[|old(pool.tasks)|].msg.Value() == msg.Value()
      ensures now > 0 && uuid != "" ==> pool.tasks[|old(pool.tasks)|].msg.Stamped()
      ensures old(Separate(pool.tasks)) ==> Separate(pool.tasks)
      ensures old(!Holds(pool.tasks, msg.metadata)) ==> !Holds(pool.tasks, msg.metadata)
    {
      var copy := CopyMsg(msg, now, uuid);
      pool.tasks := pool.tasks + [NodeTask(this, copy, self)];
    }

    /** Submits one task with a copy of the message for every target. */
    method SubmitChildren(msg: Envelope, targets: seq<NodeRef>)
      requires msg.Stamped()
      modifies this`waitingCount, pool`tasks
      ensures |pool.tasks| == |old(pool.tasks)| + |targets| && old(pool.tasks) <= pool.tasks
      ensures forall i :: |old(pool.tasks)| <= i < |pool.tasks| ==>
                CopyFor(pool.tasks[i], this, targets[i - |old(pool.tasks)|], msg)
      ensures FreshAfter(pool.tasks, |old(pool.tasks)|)
      ensures Apart(pool.tasks, |old(pool.tasks)|)
      ensures waitingCount == old(waitingCount) + |targets|
    {
      for k := 0 to |targets|
        invariant |pool.tasks| == |old(pool.tasks)| + k && old(pool.tasks) <= pool.tasks
        invariant waitingCount == old(waitingCount) + k
        invariant forall i :: |old(pool.tasks)| <= i < |pool.tasks| ==>
          CopyFor(pool.tasks[i], this, targets[i - |old(pool.tasks)|], msg)
        invariant FreshAfter(pool.tasks, |old(pool.tasks)|)
        invariant Apart(pool.tasks, |old(pool.tasks)|)
      {
        ChildReady();
        var copy := CopyMsg(msg, msg.ts, msg.id);
        pool.tasks := pool.tasks + [NodeTask(this, copy, targets[k])];
      }
    }

    /** One relation of a tell: submit every child, or end the branch. */
    method TellOne(sys: System, msg: Envelope, err: Option<string>, relation: string)
      requires msg.Stamped()
      modifies this`waitingCount, pool`tasks
      ensures old(pool.tasks) <= pool.tasks
      ensures Submitted(pool.tasks, |old(pool.tasks)|, this, PlanOne(sys, self, relation), msg, err)
      ensures FreshAfter(pool.tasks, |old(pool.tasks)|)
      ensures waitingCount == old(waitingCount) + Safety.Spawned(PlanOne(sys, self, relation))
    {
      var targets := Targets(sys.routes(self), relation);
      if targets == [] {
        DoOnEnd(msg, err, relation);
      } else {
        SubmitChildren(msg, targets);
        Safety.SpawnAllIndex(targets, relation);
      }
    }

    /**
    The whole `tell`, relation after relation. Afterwards every pending task has a metadata map of its own
    if and only if the tell ended at most one branch: two ends would hand out the same map.
    */
    method Tell(sys: System, msg: Envelope, err: Option<string>, relations: Relations)
      requires msg.Stamped()
      modifies this`waitingCount, pool`tasks
      ensures old(pool.tasks) <= pool.tasks
      ensures Submitted(pool.tasks, |old(pool.tasks)|, this, Plan(sys, self, relations), msg, err)
      ensures FreshAfter(pool.tasks, |old(pool.tasks)|)
      ensures waitingCount == old(waitingCount) + Safety.Spawned(Plan(sys, self, relations))
      ensures old(Separate(pool.tasks) && !Holds(pool.tasks, msg.metadata)) ==>
                (Separate(pool.tasks) <==> Finishes(Plan(sys, self, relations)) <= 1)
    {
      match relations {
        case NoRelation => DoOnEnd(msg, err, "");
        case Given(names) => TellEach(sys, msg, err, names);
      }
      if old(Separate(pool.tasks) && !Holds(pool.tasks, msg.metadata)) {
        SeparateIff(pool.tasks, |old(pool.tasks)|, this, Plan(sys, self, relations), msg, err);
      }
    }

    /** One more relation, after the actions `before` have been submitted from place `n` on. */
    method TellAnother(sys: System, msg: Envelope, err: Option<string>, relation: string,
                       ghost n: nat, ghost before: seq<Action>)
      requires msg.Stamped() && n <= |pool.tasks|
      requires Submitted(pool.tasks, n, this, before, msg, err) && OldEnds(pool.tasks, n, msg)
      modifies this`waitingCount, pool`tasks
      ensures old(pool.tasks) <= pool.tasks && n <= |pool.tasks|
      ensures Submitted(pool.tasks, n, this, before + PlanOne(sys, self, relation), msg, err)
      ensures OldEnds(pool.tasks, n, msg) && FreshAfter(pool.tasks, |old(pool.tasks)|)
      ensures waitingCount == old(waitingCount) + Safety.Spawned(PlanOne(sys, self, relation))
    {
      ghost var mid := pool.tasks;
      TellOne(sys, msg, err, relation);
      assert Submitted(mid, n, this, before, msg, err);
      forall j | |mid| <= j < |pool.tasks|
        ensures pool.tasks[j].EndTask? <==> pool.tasks[j].msg.metadata == msg.metadata
      {
        assert Realises(pool.tasks[j], this, PlanOne(sys, self, relation)[j - |mid|], msg, err);
      }
      Joined(pool.tasks, mid, n, this, before, PlanOne(sys, self, relation), msg, err);
    }

    method TellEach(sys: System, msg: Envelope, err: Option<string>, names: seq<string>)
      requires msg.Stamped()
      modifies this`waitingCount, pool`tasks
      ensures old(pool.tasks) <= pool.tasks
      ensures Submitted(pool.tasks, |old(pool.tasks)|, this, PlanEach(sys, self, names), msg, err)
      ensures FreshAfter(pool.tasks, |old(pool.tasks)|)
      ensures waitingCount == old(waitingCount) + Safety.Spawned(PlanEach(sys, self, names))
    {
      ghost var n := |pool.tasks|;
      ghost var done := [];
      for k := 0 to |names|
        invariant done == PlanEach(sys, self, names[..k])
        invariant old(pool.tasks) <= pool.tasks && OldEnds(pool.tasks, n, msg)
        invariant Submitted(pool.tasks, n, this, done, msg, err) && FreshAfter(pool.tasks, n)
        invariant waitingCount == old(waitingCount) + Safety.Spawned(done)
      {
        TellAnother(sys, msg, err, names[k], n, done);
        Safety.SpawnedConcat(done, PlanOne(sys, self, names[k]));
        Safety.PlanEachSnoc(sys, self, names[..k], names[k]);
        assert names[..k + 1] == names[..k] + [names[k]];
        done := done + PlanOne(sys, self, names[k]);
      }
      assert names[..|names|] == names;
    }
  }

  /** End tasks carry the told message itself, node tasks never its metadata. */
  ghost predicate OldEnds(tasks: seq<Task>, n: nat, msg: Envelope)
  {
    forall i :: n <= i < |tasks| ==>
      (tasks[i].EndTask? <==> tasks[i].msg.metadata == msg.metadata)
  }

  /** What two consecutive tells submitted, taken together. */
  lemma Joined(tasks: seq<Task>, mid: seq<Task>, n: nat, ctx: RuleContext, a: seq<Action>, b: seq<Action>,
               msg: Envelope, err: Option<string>)
    requires n <= |mid| <= |tasks| && mid == tasks[..|mid|]
    requires Submitted(mid, n, ctx, a, msg, err) && Submitted(tasks, |mid|, ctx, b, msg, err)
    requires OldEnds(mid, n, msg)
    requires forall i, j :: n <= i < |mid| <= j < |tasks| && tasks[j].NodeTask? ==>
               tasks[i].msg.metadata != tasks[j].msg.metadata
    ensures Submitted(tasks, n, ctx, a + b, msg, err)
  {
    forall i | n <= i < |tasks|
      ensures Realises(tasks[i], ctx, (a + b)[i - n], msg, err)
    {
      if i < |mid| {
        assert Realises(mid[i], ctx, a[i - n], msg, err);
      } else {
        assert Realises(tasks[i], ctx, b[i - |mid|], msg, err);
      }
    }
    forall i, j | n <= i < j < |tasks| && tasks[i].msg.metadata == tasks[j].msg.metadata
      ensures tasks[i].EndTask? && tasks[j].EndTask?
    {
      if j < |mid| {
        assert mid[i] == tasks[i] && mid[j] == tasks[j];
      } else if i < |mid| {
        assert mid[i] == tasks[i];
        assert Realises(tasks[j], ctx, b[j - |mid|], msg, err);
      }
    }
  }

  lemma {:induction false} FinishesPair(actions: seq<Action>)
    ensures Finishes(actions) >= 1 <==> exists i :: 0 <= i < |actions| && actions[i].Finish?
    ensures Finishes(actions) >= 2 <==>
            exists i, j :: 0 <= i < j < |actions| && actions[i].Finish? && actions[j].Finish?
  {
    if actions == [] {
    } else {
      var rest := actions[1..];
      FinishesPair(rest);
      if exists i :: 0 <= i < |rest| && rest[i].Finish? {
        var i :| 0 <= i < |rest| && rest[i].Finish?;
        assert actions[i + 1].Finish?;
      }
      if exists i, j :: 0 <= i < j < |rest| && rest[i].Finish? && rest[j].Finish? {
        var i, j :| 0 <= i < j < |rest| && rest[i].Finish? && rest[j].Finish?;
        assert actions[i + 1].Finish? && actions[j + 1].Finish?;
      }
      if i, j :| 0 <= i < j < |actions| && actions[i].Finish? && actions[j].Finish? {
        assert rest[j - 1].Finish?;
        if i > 0 {
          assert rest[i - 1].Finish?;
        }
      }
      if i :| 0 <= i < |actions| && actions[i].Finish? {
        if i > 0 {
          assert rest[i - 1].Finish?;
        }
      }
    }
  }

  lemma SeparateIff(tasks: seq<Task>, n: nat, ctx: RuleContext, actions: seq<Action>, msg: Envelope,
                    err: Option<string>)
    requires n <= |tasks| && Submitted(tasks, n, ctx, actions, msg, err)
    requires Separate(tasks[..n])
    requires forall i, j :: 0 <= i < n <= j < |tasks| ==> tasks[i].msg.metadata != tasks[j].msg.metadata
    ensures Separate(tasks) <==> Finishes(actions) <= 1
  {
    FinishesPair(actions);
    forall i | n <= i < |tasks|
      ensures tasks[i].EndTask? <==> actions[i - n].Finish?
    {
      assert Realises(tasks[i], ctx, actions[i - n], msg, err);
    }
    if Finishes(actions) >= 2 {
      var i, j :| 0 <= i < j < |actions| && actions[i].Finish? && actions[j].Finish?;
      assert Realises(tasks[n + i], ctx, actions[i], msg, err) && Realises(tasks[n + j], ctx, actions[j], msg, err);
      assert tasks[n + i].msg.metadata == tasks[n + j].msg.metadata;
    } else {
      forall i, j | 0 <= i < j < |tasks|
        ensures tasks[i].msg.metadata != tasks[j].msg.metadata
      {
        if j < n {
          assert tasks[..n][i] == tasks[i] && tasks[..n][j] == tasks[j];
        } else if n <= i {
          assert !(actions[i - n].Finish? && actions[j - n].Finish?);
        }
      }
    }
  }

  /** The pool without the entry that is being run. */
  function Without(tasks: seq<Task>, i: nat): (rest: seq<Task>)
    requires i < |tasks|
    ensures |rest| == |tasks| - 1
    ensures forall a :: 0 <= a < |rest| ==> rest[a] == tasks[if a < i then a else a + 1]
  {
    tasks[..i] + tasks[i + 1..]
  }

  /** Taking a task out leaves the others separate, from each other and from it. */
  lemma SeparateWithout(tasks: seq<Task>, i: nat)
    requires i < |tasks| && Separate(tasks)
    ensures Separate(Without(tasks, i)) && !Holds(Without(tasks, i), tasks[i].msg.metadata)
    ensures tasks[i].msg.metadata !in Maps(Without(tasks, i))
  {
  }

  /** Every task carries a stamped message and belongs to a context that leads up to a root. */
  ghost predicate Runnable(tasks: seq<Task>)
  {
    forall t :: t in tasks ==> t.msg.Stamped() && t.ctx.Linked()
  }

  /** From `n` on, tasks belong to `ctx`, and those that end a branch hold `own`. */
  ghost predicate Heirs(tasks: seq<Task>, n: nat, ctx: RuleContext, own: Metadata)
  {
    forall i :: n <= i < |tasks| ==>
      tasks[i].msg.Stamped() && tasks[i].ctx == ctx && (tasks[i].EndTask? ==> tasks[i].msg.metadata == own)
  }

  /** What a tell has submitted inherits from the told message. */
  lemma SubmittedHeirs(tasks: seq<Task>, n: nat, ctx: RuleContext, actions: seq<Action>,
                       msg: Envelope, err: Option<string>)
    requires n <= |tasks| && Submitted(tasks, n, ctx, actions, msg, err) && msg.Stamped()
    ensures Heirs(tasks, n, ctx, msg.metadata)
  {
    forall i | n <= i < |tasks|
      ensures tasks[i].msg.Stamped() && tasks[i].ctx == ctx
      ensures tasks[i].EndTask? ==> tasks[i].msg.metadata == msg.metadata
    {
      assert Realises(tasks[i], ctx, actions[i - n], msg, err);
      assert tasks[i].NodeTask? ==> tasks[i].msg.Value() == msg.Value();
    }
  }

  /** What a node does to the metadata it was handed: any number of writes in place. */
  method WriteAll(metadata: Metadata, puts: seq<(string, string)>)
    modifies metadata
    ensures metadata.values == Written(old(metadata.values), puts)
  {
    for k := 0 to |puts|
      invariant metadata.values == Written(old(metadata.values), puts[..k])
    {
      assert puts[..k + 1][..k] == puts[..k];
      metadata.PutValue(puts[k].0, puts[k].1);
    }
    assert puts[..|puts|] == puts;
  }

  /** The entries after a number of writes. */
  function Written(values: map<string, string>, puts: seq<(string, string)>): map<string, string>
  {
    if puts == [] then values else
    var n := |puts| - 1;
    var before := Written(values, puts[..n]);
    if puts[n].0 == "" then before else before[puts[n].0 := puts[n].1]
  }

  /** A key has what was written to it last. */
  lemma {:induction false} WrittenKey(values: map<string, string>, puts: seq<(string, string)>, i: nat)
    requires i < |puts| && puts[i].0 != "" && forall j :: i < j < |puts| ==> puts[j].0 != puts[i].0
    ensures puts[i].0 in Written(values, puts) && Written(values, puts)[puts[i].0] == puts[i].1
  {
    var n := |puts| - 1;
    if i == n {
    } else {
      WrittenKey(values, puts[..n], i);
    }
  }

  /** Otherwise it has what it had; nothing can be written to the empty key. */
  lemma {:induction false} UnwrittenKey(values: map<string, string>, puts: seq<(string, string)>, key: string)
    requires key == "" || forall i :: 0 <= i < |puts| ==> puts[i].0 != key
    ensures key in Written(values, puts) <==> key in values
    ensures key in values ==> Written(values, puts)[key] == values[key]
  {
    if puts == [] {
    } else {
      UnwrittenKey(values, puts[..|puts| - 1], key);
    }
  }

  /** The metadata maps that are held. */
  function Maps(tasks: seq<Task>): set<Metadata>
  {
    set t | t in tasks :: t.msg.metadata
  }

  /** What pending tasks see in their metadata. */
  ghost function Seen(tasks: seq<Task>): seq<map<string, string>>
    reads Maps(tasks)
  {
    seq(|tasks|, i requires 0 <= i < |tasks| reads Maps(tasks) =>
      assert tasks[i] in tasks; tasks[i].msg.metadata.values)
  }

  /** A task leaves the pool and its metadata are written. */
  method TakeOut(pool: TaskPool, i: nat, puts: seq<(string, string)>)
    requires i < |pool.tasks| && Separate(pool.tasks)
    modifies pool, pool.tasks[i].msg.metadata
    ensures pool.tasks == Without(old(pool.tasks), i)
    ensures Separate(pool.tasks) && !Holds(pool.tasks, old(pool.tasks[i].msg.metadata))
    ensures old(pool.tasks[i].msg.metadata).values == Written(old(pool.tasks[i].msg.metadata.values), puts)
    ensures Seen(Without(old(pool.tasks), i)) == old(Seen(Without(pool.tasks, i)))
  {
    var task := pool.tasks[i];
    SeparateWithout(pool.tasks, i);
    pool.tasks := Without(pool.tasks, i);
    WriteAll(task.msg.metadata, puts);
  }

  /** A new context below `parent` tells; its message is held by no pending task. */
  method TellFrom(sys: System, pool: TaskPool, node: NodeRef, parent: RuleContext, msg: Envelope,
                  err: Option<string>, relations: Relations) returns (child: RuleContext)
    requires Separate(pool.tasks) && !Holds(pool.tasks, msg.metadata) && msg.Stamped() && parent.Linked()
    modifies pool
    ensures fresh(child) && child.self == node && child.parent == parent && child.Linked()
    ensures child.waitingCount == Safety.Spawned(Plan(sys, node, relations))
    ensures old(pool.tasks) <= pool.tasks
    ensures Submitted(pool.tasks, |old(pool.tasks)|, child, Plan(sys, node, relations), msg, err)
    ensures FreshAfter(pool.tasks, |old(pool.tasks)|)
    ensures Separate(pool.tasks) <==> Finishes(Plan(sys, node, relations)) <= 1
    ensures Seen(old(pool.tasks)) == old(Seen(pool.tasks))
  {
    child := new RuleContext(node, parent, pool);
    child.Tell(sys, msg, err, relations);
  }

  /**
  Running a node task: the node writes into the metadata it was handed and tells. No other pending
  task sees the writes, and the new tasks hold new maps or the one that was handed over.
  */
  method RunNodeTask(sys: System, pool: TaskPool, i: nat, puts: seq<(string, string)>, data: string,
                     err: Option<string>, relations: Relations) returns (child: RuleContext)
    requires i < |pool.tasks| && pool.tasks[i].NodeTask? && Separate(pool.tasks) && Runnable(pool.tasks)
    modifies pool, pool.tasks[i].msg.metadata
    ensures fresh(child) && child.self == old(pool.tasks[i]).node && child.parent == old(pool.tasks[i]).ctx
    ensures child.Linked() && child.waitingCount == Safety.Spawned(Plan(sys, child.self, relations))
    ensures Without(old(pool.tasks), i) <= pool.tasks
    ensures Submitted(pool.tasks, |old(pool.tasks)| - 1, child, Plan(sys, child.self, relations),
                      old(pool.tasks[i].msg).(data := data), err)
    ensures FreshAfter(pool.tasks, |old(pool.tasks)| - 1)
    ensures old(pool.tasks[i].msg.metadata).values == Written(old(pool.tasks[i].msg.metadata.values), puts)
    ensures Seen(Without(old(pool.tasks), i)) == old(Seen(Without(pool.tasks, i)))
    ensures Separate(pool.tasks) <==> Finishes(Plan(sys, child.self, relations)) <= 1
  {
    var task := pool.tasks[i];
    assert task in pool.tasks;
    ghost var rest := Without(pool.tasks, i);
    ghost var seen := Seen(rest);
    TakeOut(pool, i, puts);
    assert pool.tasks == rest && Seen(rest) == seen && |rest| == |old(pool.tasks)| - 1;
    ghost var values := task.msg.metadata.values;
    child := TellFrom(sys, pool, task.node, task.ctx, task.msg.(data := data), err, relations);
    assert rest <= pool.tasks && Seen(rest) == seen && task.msg.metadata.values == values;
  }
}
