/**
The join callback of groupFilter, one atomic operation at a time. An eager child decides the
group alone: a child that is not True when all must match, a True child when any may match.
*/
module GroupFilterRace {
  import opened Sums
  import Action = GroupActionRace

  datatype Pc =
    | LoadCompleted
    | AddEnd
    | CasEager
    | LoadEnd
    | CasLazy
    | SendEager
    | SendLazy
    | Skipped
    | Finished

  /** `results[i]` says whether child `i` reported True. */
  datatype Group = Group(results: seq<bool>, allMatches: bool)
  {
    predicate Eager(i: nat)
      requires i < |results|
    {
      results[i] != allMatches
    }

    /** The conjunction or the disjunction of the children. */
    ghost predicate Verdict()
    {
      if allMatches then forall i :: 0 <= i < |results| ==> results[i]
      else exists i :: 0 <= i < |results| && results[i]
    }
  }

  datatype State = State(pcs: seq<Pc>, endCount: nat, completed: bool, channel: seq<bool>)

  ghost predicate Fits(g: Group, s: State) { |s.pcs| == |g.results| }

  function Init(g: Group): (s: State)
    ensures Fits(g, s)
  {
    State(seq(|g.results|, i => LoadCompleted), 0, false, [])
  }

  function Goto(s: State, i: nat, pc: Pc): State
    requires i < |s.pcs|
  {
    s.(pcs := s.pcs[i := pc])
  }

  function Step(g: Group, s: State, i: nat): (s': State)
    requires Fits(g, s)
    ensures Fits(g, s')
  {
    if i >= |s.pcs| then s else
    match s.pcs[i]
    case LoadCompleted => Goto(s, i, if s.completed then Skipped else AddEnd)
    case AddEnd => Goto(s, i, if g.Eager(i) then CasEager else LoadEnd).(endCount := s.endCount + 1)
    case CasEager => if s.completed then Goto(s, i, LoadEnd) else Goto(s, i, SendEager).(completed := true)
    case LoadEnd => Goto(s, i, if s.endCount >= |g.results| then CasLazy else Finished)
    case CasLazy => if s.completed then Goto(s, i, Finished) else Goto(s, i, SendLazy).(completed := true)
    case SendEager => Goto(s, i, Finished).(channel := s.channel + [!g.allMatches])
    case SendLazy => Goto(s, i, Finished).(channel := s.channel + [g.allMatches])
    case Skipped => s
    case Finished => s
  }

  function Exec(g: Group, s: State, schedule: seq<nat>): (s': State)
    requires Fits(g, s)
    ensures Fits(g, s')
    decreases |schedule|
  {
    if schedule == [] then s else Exec(g, Step(g, s, schedule[0]), schedule[1..])
  }

  predicate Over(s: State)
  {
    forall i :: 0 <= i < |s.pcs| ==> s.pcs[i] == Skipped || s.pcs[i] == Finished
  }

  // ---------- what every step keeps ----------

  function Ended(pc: Pc): nat
  {
    if pc == LoadCompleted || pc == AddEnd || pc == Skipped then 0 else 1
  }

  function Sending(pc: Pc): nat
  {
    if pc == SendEager || pc == SendLazy then 1 else 0
  }

  predicate Hot(pc: Pc) { pc == CasEager || pc == LoadEnd || pc == CasLazy }

  ghost predicate SomeHot(s: State)
  {
    exists i :: 0 <= i < |s.pcs| && Hot(s.pcs[i])
  }

  ghost predicate Totals(g: Group, s: State)
  {
    && Fits(g, s)
    && s.endCount == Sum(Ended, s.pcs)
    && |s.channel| + Sum(Sending, s.pcs) == Action.One(s.completed)
  }

  /** Only eager children decide early, and only the others, or latecomers, look at `endCount`. */
  ghost predicate Places(g: Group, s: State)
  {
    && Fits(g, s)
    && (!s.completed ==> forall i :: 0 <= i < |s.pcs| ==> s.pcs[i] != Skipped)
    && (forall i :: 0 <= i < |s.pcs| && (s.pcs[i] == CasEager || s.pcs[i] == SendEager) ==> g.Eager(i))
    && (forall i :: 0 <= i < |s.pcs| && (s.pcs[i] == LoadEnd || s.pcs[i] == CasLazy) ==>
          !g.Eager(i) || s.completed)
    && (forall i :: 0 <= i < |s.pcs| && s.pcs[i] == SendLazy ==> !g.Eager(i))
    && (!g.allMatches in s.channel ==> exists i :: 0 <= i < |g.results| && g.Eager(i))
    && (g.allMatches in s.channel ==> exists i :: 0 <= i < |g.results| && !g.Eager(i))
  }

  ghost predicate Inv(g: Group, s: State)
  {
    Totals(g, s) && Places(g, s) && (!s.completed && s.endCount == |g.results| ==> SomeHot(s))
  }

  lemma InitInv(g: Group)
    requires g.results != []
    ensures Inv(g, Init(g))
  {
    SumZero(Ended, Init(g).pcs);
    SumZero(Sending, Init(g).pcs);
  }

  lemma StepOwn(g: Group, s: State, i: nat)
    requires Places(g, s) && i < |s.pcs|
    ensures var s' := Step(g, s, i);
            && s'.pcs == s.pcs[i := s'.pcs[i]]
            && s'.endCount - s.endCount == Ended(s'.pcs[i]) - Ended(s.pcs[i])
            && |s'.channel| - |s.channel| + Sending(s'.pcs[i]) - Sending(s.pcs[i]) ==
               Action.One(s'.completed) - Action.One(s.completed)
  {
    assert s.pcs[i := s.pcs[i]] == s.pcs;
  }

  lemma StepTotals(g: Group, s: State, i: nat)
    requires Totals(g, s) && Places(g, s)
    ensures Totals(g, Step(g, s, i))
  {
    if i < |s.pcs| {
      var pc := Step(g, s, i).pcs[i];
      StepOwn(g, s, i);
      SumUpdate(Ended, s.pcs, i, pc);
      SumUpdate(Sending, s.pcs, i, pc);
      SumAtLeast(Sending, s.pcs, i);
    }
  }

  lemma StepPlaces(g: Group, s: State, i: nat)
    requires Places(g, s)
    ensures Places(g, Step(g, s, i))
  {
    if i < |s.pcs| {
      assert Step(g, s, i).pcs == s.pcs[i := Step(g, s, i).pcs[i]];
    }
  }

  lemma StepHot(g: Group, s: State, i: nat)
    requires Inv(g, s)
    ensures var s' := Step(g, s, i);
            !s'.completed && s'.endCount == |g.results| ==> SomeHot(s')
  {
    var s' := Step(g, s, i);
    if i < |s.pcs| && !s'.completed && s'.endCount == |g.results| {
      if s.pcs[i] == AddEnd {
        assert Hot(s'.pcs[i]);
      } else {
        var k :| 0 <= k < |s.pcs| && Hot(s.pcs[k]);
        assert Hot(s'.pcs[k]);
      }
    }
  }

  lemma {:induction false} ExecInv(g: Group, s: State, schedule: seq<nat>)
    requires Inv(g, s)
    ensures Inv(g, Exec(g, s, schedule))
    decreases |schedule|
  {
    if schedule == [] {
    } else {
      StepTotals(g, s, schedule[0]);
      StepPlaces(g, s, schedule[0]);
      StepHot(g, s, schedule[0]);
      ExecInv(g, Step(g, s, schedule[0]), schedule[1..]);
    }
  }

  /**
  In every interleaving: never more than one verdict, exactly one once all callbacks are over, an
  all-match False only with a child that is not True, an any-match True only with a True child.
  */
  lemma OneVerdict(g: Group, schedule: seq<nat>)
    requires g.results != []
    ensures var s := Exec(g, Init(g), schedule);
            && (s.channel == [] || s.channel == [true] || s.channel == [false])
            && (Over(s) ==> s.channel != [])
            && (g.allMatches && s.channel == [false] ==> exists i :: 0 <= i < |g.results| && !g.results[i])
            && (!g.allMatches && s.channel == [true] ==> exists i :: 0 <= i < |g.results| && g.results[i])
  {
    InitInv(g);
    ExecInv(g, Init(g), schedule);
    var s := Exec(g, Init(g), schedule);
    Action.AtMostOne(s.channel);
    if Over(s) {
      SumZero(Sending, s.pcs);
      if !s.completed {
        SumBound(Ended, s.pcs);
      }
    }
    if s.channel == [!g.allMatches] {
      var i :| 0 <= i < |g.results| && g.Eager(i);
      assert g.results[i] == !g.allMatches;
    }
  }

  // ---------- exactly when the verdict does not depend on the interleaving ----------

  ghost predicate RightAfter(g: Group, schedule: seq<nat>)
  {
    var s := Exec(g, Init(g), schedule);
    s.channel == [] || s.channel == [g.Verdict()]
  }

  ghost predicate AlwaysRight(g: Group)
  {
    forall schedule :: RightAfter(g, schedule)
  }

  ghost predicate Unanimous(g: Group)
  {
    forall i, j :: 0 <= i < |g.results| && 0 <= j < |g.results| ==> g.results[i] == g.results[j]
  }

  lemma RightWhenUnanimous(g: Group, schedule: seq<nat>)
    requires g.results != [] && Unanimous(g)
    ensures RightAfter(g, schedule)
  {
    InitInv(g);
    ExecInv(g, Init(g), schedule);
    OneVerdict(g, schedule);
    var s := Exec(g, Init(g), schedule);
    if s.channel != [] {
      assert s.channel[0] in s.channel;
      assert s.channel == [s.channel[0]];
      if s.channel[0] == g.allMatches {
        var i :| 0 <= i < |g.results| && !g.Eager(i);
        assert forall j :: 0 <= j < |g.results| ==> g.results[j] == g.results[i];
      } else {
        var i :| 0 <= i < |g.results| && g.Eager(i);
        assert g.results[i] == !g.allMatches;
      }
    }
  }

  lemma {:induction false} ExecConcat(g: Group, s: State, a: seq<nat>, b: seq<nat>)
    requires Fits(g, s)
    ensures Exec(g, s, a + b) == Exec(g, Exec(g, s, a), b)
    decreases |a|
  {
    if a == [] {
      assert a + b == b;
    } else {
      ExecConcat(g, Step(g, s, a[0]), a[1..], b);
      assert (a + b)[0] == a[0] && (a + b)[1..] == a[1..] + b;
    }
  }

  function AfterEnd(g: Group, i: int): Pc
  {
    if 0 <= i < |g.results| && g.Eager(i) then CasEager else LoadEnd
  }

  /** Callbacks below `k`, except `slow`, have added themselves to `endCount` and stopped there. */
  function Parked(g: Group, slow: nat, k: nat): (s: State)
    requires k <= |g.results|
    ensures Fits(g, s)
  {
    State(seq(|g.results|, i => if i < k && i != slow then AfterEnd(g, i) else LoadCompleted),
          if slow < k then k - 1 else k, false, [])
  }

  lemma ParkOne(g: Group, s: State, i: nat)
    requires Fits(g, s) && i < |s.pcs| && s.pcs[i] == LoadCompleted && !s.completed
    ensures Exec(g, s, [i, i]) == Goto(s, i, AfterEnd(g, i)).(endCount := s.endCount + 1)
  {
    var s1 := Step(g, s, i);
    var s2 := Step(g, s1, i);
    assert [i, i][1..] == [i] && [i][1..] == [];
    assert Exec(g, s1, [i]) == s2;
    assert s2.pcs == s.pcs[i := AfterEnd(g, i)];
  }

  lemma {:induction false} ParkAll(g: Group, slow: nat, k: nat) returns (schedule: seq<nat>)
    requires slow < |g.results| && k <= |g.results|
    ensures Exec(g, Init(g), schedule) == Parked(g, slow, k)
  {
    if k == 0 {
      schedule := [];
      assert Init(g).pcs == Parked(g, slow, 0).pcs;
    } else {
      var before := ParkAll(g, slow, k - 1);
      if k - 1 == slow {
        schedule := before;
        assert Parked(g, slow, k).pcs == Parked(g, slow, k - 1).pcs;
      } else {
        schedule := before + [k - 1, k - 1];
        ExecConcat(g, Init(g), before, [k - 1, k - 1]);
        ParkOne(g, Parked(g, slow, k - 1), k - 1);
        assert Parked(g, slow, k).pcs == Parked(g, slow, k - 1).pcs[k - 1 := AfterEnd(g, k - 1)];
      }
    }
  }

  /** A child that is not eager decides the group while the eager ones are parked. */
  lemma LazyWins(g: Group, slow: nat) returns (schedule: seq<nat>)
    requires slow < |g.results| && !g.Eager(slow)
    ensures Exec(g, Init(g), schedule).channel == [g.allMatches]
  {
    var before := ParkAll(g, slow, |g.results|);
    var s0 := Parked(g, slow, |g.results|);
    ParkOne(g, s0, slow);
    var s := Exec(g, s0, [slow, slow]);
    ExecConcat(g, Init(g), before, [slow, slow]);
    var rest := [slow, slow, slow];
    var s1 := Step(g, s, slow);
    var s2 := Step(g, s1, slow);
    var s3 := Step(g, s2, slow);
    assert rest[1..] == [slow, slow] && [slow, slow][1..] == [slow];
    assert Exec(g, s2, [slow]) == s3 && Exec(g, s1, [slow, slow]) == s3 && Exec(g, s, rest) == s3;
    schedule := before + [slow, slow] + rest;
    ExecConcat(g, Init(g), before + [slow, slow], rest);
  }

  /**
  The verdict is the conjunction or disjunction of the children in every interleaving if and only if
  the children all agree: in every mixed group some interleaving gives the wrong verdict.
  */
  lemma RightIff(g: Group)
    requires g.results != []
    ensures AlwaysRight(g) <==> Unanimous(g)
    ensures AlwaysRight(g) <==> forall schedule :: RightAfter(g, schedule)
    ensures forall schedule :: RightAfter(g, schedule) <==>
              var channel := Exec(g, Init(g), schedule).channel;
              channel == [] || channel == [if g.allMatches then false !in g.results else true in g.results]
  {
    if Unanimous(g) {
      forall schedule
        ensures RightAfter(g, schedule)
      {
        RightWhenUnanimous(g, schedule);
      }
    } else {
      var i, j :| 0 <= i < |g.results| && 0 <= j < |g.results| && g.results[i] != g.results[j];
      var slow, eager := if g.Eager(i) then j else i, if g.Eager(i) then i else j;
      var schedule := LazyWins(g, slow);
      assert g.results[eager] != g.allMatches;
      assert g.Verdict() == !g.allMatches;
      assert !RightAfter(g, schedule);
    }
  }
}
