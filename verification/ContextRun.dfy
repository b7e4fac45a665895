/**
A whole message on the heap: the first node is submitted, and then pending tasks are run in any order,
with nodes and end callbacks that write into the metadata they are handed. At every step the pending
tasks hold maps of their own, and the caller's map is never touched.
*/
module ContextRuns {
  import opened Messages
  import opened Engine
  import opened RuleContexts

  /** The next task to run, and what its node or end callback will do: write, and then tell or panic. */
  datatype Pick = Pick(
    place: nat, puts: seq<(string, string)>, panics: bool, data: string, err: Option<string>, relations: Relations)

  /** If the pick runs a node that tells, the tell ends at most one branch there. */
  predicate EndsAtMostOnce(sys: System, tasks: seq<Task>, pick: Pick)
  {
    pick.place < |tasks| && tasks[pick.place].NodeTask? && !pick.panics ==>
      Finishes(Plan(sys, tasks[pick.place].node, pick.relations)) <= 1
  }

  lemma {:induction false} SpawnsOnly(targets: seq<NodeRef>, relation: string)
    ensures Finishes(SpawnAll(targets, relation)) == 0
  {
    if targets == [] {
    } else {
      SpawnsOnly(targets[1..], relation);
    }
  }

  /** Telling one relation, or none, always does. */
  lemma OneRelationEndsOnce(sys: System, tasks: seq<Task>, pick: Pick)
    requires pick.relations.Given? ==> |pick.relations.names| <= 1
    ensures EndsAtMostOnce(sys, tasks, pick)
  {
    if pick.place < |tasks| && tasks[pick.place].NodeTask? && pick.relations.Given? && |pick.relations.names| == 1 {
      var node, relation := tasks[pick.place].node, pick.relations.names[0];
      SpawnsOnly(Targets(sys.routes(node), relation), relation);
      assert PlanEach(sys, node, pick.relations.names[1..]) == [];
      assert Plan(sys, node, pick.relations) == PlanOne(sys, node, relation);
    }
  }

  /** Separate tasks whose contexts are all in `home` and whose metadata are all in `mine`. */
  ghost predicate Isolated(tasks: seq<Task>, home: set<RuleContext>, mine: set<Metadata>)
  {
    && Separate(tasks) && Runnable(tasks)
    && forall t :: t in tasks ==> t.ctx.Line() <= home && t.msg.metadata in mine
  }

  /**
  An end callback returns, or a node panics: either may have written, and then the context that it
  belongs to has one less to wait for.
  */
  method RunOff(pool: TaskPool, i: nat, puts: seq<(string, string)>)
    requires i < |pool.tasks| && Separate(pool.tasks) && pool.tasks[i].ctx.Linked()
    modifies pool, pool.tasks[i].msg.metadata, pool.tasks[i].ctx.Line()
    ensures pool.tasks == Without(old(pool.tasks), i) && Separate(pool.tasks)
    ensures Seen(pool.tasks) == old(Seen(Without(pool.tasks, i)))
    ensures old(pool.tasks[i]).ctx.Counters() == Bubble(old(pool.tasks[i].ctx.Counters()))
    ensures old(pool.tasks[i].msg.metadata).values == Written(old(pool.tasks[i].msg.metadata.values), puts)
  {
    var task := pool.tasks[i];
    ghost var counters := task.ctx.Counters();
    task.ctx.LineExists();
    TakeOut(pool, i, puts);
    assert task.ctx.Counters() == counters;
    ghost var seen := Seen(pool.tasks);
    task.ctx.ChildDone();
    assert Seen(pool.tasks) == seen;
  }

  lemma WithoutIsolated(tasks: seq<Task>, i: nat, home: set<RuleContext>, mine: set<Metadata>)
    requires i < |tasks| && Isolated(tasks, home, mine)
    ensures Isolated(Without(tasks, i), home, mine)
  {
    SeparateWithout(tasks, i);
  }

  /** What a node has submitted joins the pool: its context is `child`, its maps are in `more`. */
  lemma WithHeirs(tasks: seq<Task>, n: nat, child: RuleContext, own: Metadata, home: set<RuleContext>,
                  mine: set<Metadata>, more: set<Metadata>)
    requires n <= |tasks| && Isolated(tasks[..n], home, mine) && Separate(tasks)
    requires Heirs(tasks, n, child, own) && child.Linked() && child.Line() <= home + {child} && own in mine
    requires forall i :: n <= i < |tasks| && tasks[i].NodeTask? ==> tasks[i].msg.metadata in more
    ensures Isolated(tasks, home + {child}, mine + more)
  {
    forall t | t in tasks
      ensures t.msg.Stamped() && t.ctx.Linked() && t.ctx.Line() <= home + {child} && t.msg.metadata in mine + more
    {
      var i :| 0 <= i < |tasks| && tasks[i] == t;
      if i < n {
        assert t in tasks[..n];
      }
    }
  }

  /** The maps of the node tasks from `n` on. */
  ghost function NewMaps(tasks: seq<Task>, n: nat): set<Metadata>
  {
    set i | n <= i < |tasks| && tasks[i].NodeTask? :: tasks[i].msg.metadata
  }

  method StepNode(sys: System, pool: TaskPool, pick: Pick, ghost home: set<RuleContext>, ghost mine: set<Metadata>)
    returns (ghost child: RuleContext, ghost more: set<Metadata>)
    requires Isolated(pool.tasks, home, mine) && EndsAtMostOnce(sys, pool.tasks, pick) && !pick.panics
    requires pick.place < |pool.tasks| && pool.tasks[pick.place].NodeTask?
    modifies pool, mine
    ensures Isolated(pool.tasks, home + {child}, mine + more) && fresh(child) && fresh(more)
    ensures Without(old(pool.tasks), pick.place) <= pool.tasks
    ensures Seen(Without(old(pool.tasks), pick.place)) == old(Seen(Without(pool.tasks, pick.place)))
    ensures pick.panics || Submitted(
              pool.tasks, |old(pool.tasks)| - 1, child, Plan(sys, old(pool.tasks[pick.place]).node, pick.relations),
              old(pool.tasks[pick.place].msg).(data := pick.data), pick.err)
    ensures old(pool.tasks[pick.place].msg.metadata).values ==
            Written(old(pool.tasks[pick.place].msg.metadata.values), pick.puts)
  {
    var task := pool.tasks[pick.place];
    assert task in pool.tasks;
    ghost var rest := Without(pool.tasks, pick.place);
    WithoutIsolated(pool.tasks, pick.place, home, mine);
    child := RunNodeTask(sys, pool, pick.place, pick.puts, pick.data, pick.err, pick.relations);
    more := NewMaps(pool.tasks, |rest|);
    WithPlan(pool.tasks, rest, child, Plan(sys, child.self, pick.relations), task.msg.(data := pick.data), pick.err,
             home, mine);
  }

  /** After a node has told, everything is isolated again. */
  lemma WithPlan(tasks: seq<Task>, rest: seq<Task>, child: RuleContext, plan: seq<Action>, msg: Envelope,
                 err: Option<string>, home: set<RuleContext>, mine: set<Metadata>)
    requires rest <= tasks && Isolated(rest, home, mine) && Separate(tasks)
    requires Submitted(tasks, |rest|, child, plan, msg, err) && msg.Stamped() && msg.metadata in mine
    requires child.Linked() && child.Line() <= home + {child}
    ensures Isolated(tasks, home + {child}, mine + NewMaps(tasks, |rest|))
  {
    SubmittedHeirs(tasks, |rest|, child, plan, msg, err);
    assert tasks[..|rest|] == rest;
    WithHeirs(tasks, |rest|, child, msg.metadata, home, mine, NewMaps(tasks, |rest|));
  }

  method StepOff(pool: TaskPool, pick: Pick, ghost home: set<RuleContext>, ghost mine: set<Metadata>)
    requires Isolated(pool.tasks, home, mine) && pick.place < |pool.tasks|
    modifies pool, home, mine
    ensures Isolated(pool.tasks, home, mine) && pool.tasks == Without(old(pool.tasks), pick.place)
    ensures Seen(pool.tasks) == old(Seen(Without(pool.tasks, pick.place)))
    ensures old(pool.tasks[pick.place]).ctx.Linked()
    ensures old(pool.tasks[pick.place]).ctx.Counters() == Bubble(old(pool.tasks[pick.place].ctx.Counters()))
    ensures old(pool.tasks[pick.place].msg.metadata).values ==
            Written(old(pool.tasks[pick.place].msg.metadata.values), pick.puts)
  {
    WithoutIsolated(pool.tasks, pick.place, home, mine);
    assert pool.tasks[pick.place] in pool.tasks;
    RunOff(pool, pick.place, pick.puts);
  }

  /**
  One task of the pool is run, if there is one at that place, and its metadata written. A node that tells
  submits its plan; an end callback, or a node that panics, leaves its context one less to wait for. What
  the other tasks see stays as it was, and all tasks stay isolated.
  */
  method Step(sys: System, pool: TaskPool, pick: Pick, ghost home: set<RuleContext>, ghost mine: set<Metadata>)
    returns (ghost child: set<RuleContext>, ghost more: set<Metadata>)
    requires Isolated(pool.tasks, home, mine) && EndsAtMostOnce(sys, pool.tasks, pick)
    modifies pool, home, mine
    ensures Isolated(pool.tasks, home + child, mine + more) && fresh(child) && fresh(more)
    ensures pick.place >= |old(pool.tasks)| ==> pool.tasks == old(pool.tasks)
    ensures pick.place < |old(pool.tasks)| ==>
              && Without(old(pool.tasks), pick.place) <= pool.tasks
              && Seen(Without(old(pool.tasks), pick.place)) == old(Seen(Without(pool.tasks, pick.place)))
              && old(pool.tasks)[pick.place].msg.metadata.values ==
                 Written(old(pool.tasks[pick.place].msg.metadata.values), pick.puts)
    ensures pick.place < |old(pool.tasks)| && (old(pool.tasks)[pick.place].EndTask? || pick.panics) ==>
              && pool.tasks == Without(old(pool.tasks), pick.place) && old(pool.tasks)[pick.place].ctx.Linked()
              && old(pool.tasks)[pick.place].ctx.Counters() == Bubble(old(pool.tasks[pick.place].ctx.Counters()))
    ensures pick.place < |old(pool.tasks)| && old(pool.tasks)[pick.place].NodeTask? && !pick.panics ==>
              exists c :: child == {c} && Submitted(
                pool.tasks, |old(pool.tasks)| - 1, c, Plan(sys, old(pool.tasks)[pick.place].node, pick.relations),
                old(pool.tasks)[pick.place].msg.(data := pick.data), pick.err)
  {
    child, more := {}, {};
    if pick.place < |pool.tasks| {
      if pool.tasks[pick.place].EndTask? || pick.panics {
        StepOff(pool, pick, home, mine);
        assert home + child == home && mine + more == mine;
      } else {
        ghost var c;
        c, more := StepNode(sys, pool, pick, home, mine);
        child := {c};
      }
    }
  }

  /**
  A message is told to the first node, and any tasks are run in any order, with any writes and any panics,
  beside the tasks of other messages, up to the first pick that would end two branches with one tell. The
  pending tasks hold pairwise different maps, none of them the caller's, and the caller's map is what it was.
  */
  method RunMessage(sys: System, root: RuleContext, msg: Envelope, now: int, uuid: string, picks: seq<Pick>,
                    ghost others: set<RuleContext>, ghost theirs: set<Metadata>)
    returns (ran: nat)
    requires root.Linked() && now > 0 && uuid != ""
    requires Isolated(root.pool.tasks, others, theirs) && msg.metadata !in theirs
    modifies root.pool, root.Line(), others, theirs
    ensures Separate(root.pool.tasks) && !Holds(root.pool.tasks, msg.metadata)
    ensures msg.metadata.values == old(msg.metadata.values)
    ensures ran <= |picks| && (ran < |picks| ==> !EndsAtMostOnce(sys, root.pool.tasks, picks[ran]))
  {
    ran := 0;
    var pool := root.pool;
    root.TellFirst(msg, now, uuid);
    ghost var own := pool.tasks[|pool.tasks| - 1].msg.metadata;
    ghost var home, mine := root.Line() + others, theirs + {own};
    FirstIsolated(old(pool.tasks), pool.tasks, others, theirs, root.Line(), own);
    while ran < |picks| && EndsAtMostOnce(sys, pool.tasks, picks[ran])
      invariant ran <= |picks| && Isolated(pool.tasks, home, mine)
      invariant fresh(mine - theirs) && fresh(home - root.Line() - others)
      invariant msg.metadata !in mine && msg.metadata.values == old(msg.metadata.values)
    {
      ghost var child, more := Step(sys, pool, picks[ran], home, mine);
      home, mine := home + child, mine + more;
      ran := ran + 1;
    }
  }

  lemma FirstIsolated(before: seq<Task>, after: seq<Task>, others: set<RuleContext>, theirs: set<Metadata>,
                      line: set<RuleContext>, own: Metadata)
    requires Isolated(before, others, theirs) && Separate(after) && |after| == |before| + 1 && before <= after
    requires var t := after[|before|];
             t.msg.Stamped() && t.ctx.Linked() && t.ctx.Line() <= line && t.msg.metadata == own
    ensures Isolated(after, line + others, theirs + {own})
  {
    forall t | t in after
      ensures t.msg.Stamped() && t.ctx.Linked() && t.ctx.Line() <= line + others && t.msg.metadata in theirs + {own}
    {
      assert t in before || t == after[|before|];
    }
  }
}
