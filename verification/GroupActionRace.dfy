/**
The join callback of groupAction, one atomic operation at a time. Every child of the group runs the
callback once; a schedule names the callback that makes the next step.
*/
module GroupActionRace {
  import opened Sums

  /** The next operation of one callback. */
  datatype Pc =
    | LoadCompleted
    | WriteSlot
    | AddEnd
    | AddMatch
    | LoadMatch
    | CasTrue
    | LoadEnd
    | CasFalse
    | SendTrue
    | SendFalse
    | Skipped
    | Finished

  /** `matches[i]` says whether child `i` reported the wanted relation; `need` is the normalised MatchNum. */
  datatype Group = Group(matches: seq<bool>, need: nat)
  {
    ghost predicate Valid() { 1 <= need <= |matches| }
  }

  /** `wrapped` is the set of result slots that were filled when the verdict was sent. */
  datatype State = State(
    pcs: seq<Pc>, endCount: nat, matched: nat, completed: bool, channel: seq<bool>, wrapped: set<nat>)

  ghost predicate Fits(g: Group, s: State) { |s.pcs| == |g.matches| }

  function Init(g: Group): (s: State)
    ensures Fits(g, s)
  {
    State(seq(|g.matches|, i => LoadCompleted), 0, 0, false, [], {})
  }

  /** The slot of callback `i` holds a result. */
  predicate Filled(pc: Pc) { pc != LoadCompleted && pc != WriteSlot && pc != Skipped }

  function FilledSlots(s: State): set<nat>
  {
    set i | 0 <= i < |s.pcs| && Filled(s.pcs[i])
  }

  function Goto(s: State, i: nat, pc: Pc): State
    requires i < |s.pcs|
  {
    s.(pcs := s.pcs[i := pc])
  }

  /** The next operation of callback `i`; a callback that is over does nothing. */
  function Step(g: Group, s: State, i: nat): (s': State)
    requires Fits(g, s)
    ensures Fits(g, s')
  {
    if i >= |s.pcs| then s else
    match s.pcs[i]
    case LoadCompleted => Goto(s, i, if s.completed then Skipped else WriteSlot)
    case WriteSlot => Goto(s, i, AddEnd)
    case AddEnd => Goto(s, i, if g.matches[i] then AddMatch else LoadMatch).(endCount := s.endCount + 1)
    case AddMatch => Goto(s, i, LoadMatch).(matched := s.matched + 1)
    case LoadMatch => Goto(s, i, if s.matched >= g.need then CasTrue else LoadEnd)
    case CasTrue => if s.completed then Goto(s, i, Finished) else Goto(s, i, SendTrue).(completed := true)
    case LoadEnd => Goto(s, i, if s.endCount >= |g.matches| then CasFalse else Finished)
    case CasFalse => if s.completed then Goto(s, i, Finished) else Goto(s, i, SendFalse).(completed := true)
    case SendTrue => Goto(s, i, Finished).(channel := s.channel + [true], wrapped := FilledSlots(s))
    case SendFalse => Goto(s, i, Finished).(channel := s.channel + [false], wrapped := FilledSlots(s))
    case Skipped => s
    case Finished => s
  }

  function Exec(g: Group, s: State, schedule: seq<nat>): (s': State)
    requires Fits(g, s)
    ensures Fits(g, s')
    decreases |schedule|
  {
    if schedule == [] then s else Exec(g, Step(g, s, schedule[0]), schedule[1..])
  }

  predicate Over(s: State)
  {
    forall i :: 0 <= i < |s.pcs| ==> s.pcs[i] == Skipped || s.pcs[i] == Finished
  }

  function One(b: bool): nat { if b then 1 else 0 }

  /** The number of matching children. */
  function Matching(matches: seq<bool>): nat { Sum(One, matches) }

  // ---------- counting callbacks ----------

  function Ended(pc: Pc): nat
  {
    if pc == LoadCompleted || pc == WriteSlot || pc == AddEnd || pc == Skipped then 0 else 1
  }

  function Sending(pc: Pc): nat
  {
    if pc == SendTrue || pc == SendFalse then 1 else 0
  }

  /** Whether a callback of a matching child has added its match. */
  function Counted(p: (Pc, bool)): nat
  {
    if p.1 && Ended(p.0) == 1 && p.0 != AddMatch then 1 else 0
  }

  function Pair(pcs: seq<Pc>, matches: seq<bool>): (r: seq<(Pc, bool)>)
    requires |pcs| == |matches|
    ensures |r| == |pcs| && forall i :: 0 <= i < |r| ==> r[i] == (pcs[i], matches[i])
  {
    if pcs == [] then [] else [(pcs[0], matches[0])] + Pair(pcs[1..], matches[1..])
  }

  /** Between adding itself to `endCount` and making up its mind. */
  predicate Hot(pc: Pc)
  {
    pc == AddMatch || pc == LoadMatch || pc == CasTrue || pc == LoadEnd || pc == CasFalse
  }

  ghost predicate SomeHot(s: State)
  {
    exists i :: 0 <= i < |s.pcs| && Hot(s.pcs[i])
  }

  /** The shared counters are the numbers of callbacks that have passed the places where they add. */
  ghost predicate Totals(g: Group, s: State)
  {
    && Fits(g, s)
    && s.endCount == Sum(Ended, s.pcs)
    && s.matched == Sum(Counted, Pair(s.pcs, g.matches))
    && |s.channel| + Sum(Sending, s.pcs) == One(s.completed)
  }

  ghost predicate Places(g: Group, s: State)
  {
    && Fits(g, s)
    && (!s.completed ==> forall i :: 0 <= i < |s.pcs| ==> s.pcs[i] != Skipped)
    && (forall i :: 0 <= i < |s.pcs| && (s.pcs[i] == CasTrue || s.pcs[i] == SendTrue) ==> s.matched >= g.need)
    && (true in s.channel ==> s.matched >= g.need)
    && (forall i :: 0 <= i < |s.pcs| && s.pcs[i] == AddMatch ==> g.matches[i])
  }

  ghost predicate Inv(g: Group, s: State)
  {
    Totals(g, s) && Places(g, s) && (!s.completed && s.endCount == |g.matches| ==> SomeHot(s))
  }

  lemma InitInv(g: Group)
    requires g.Valid()
    ensures Inv(g, Init(g))
  {
    var s := Init(g);
    SumZero(Ended, s.pcs);
    SumZero(Sending, s.pcs);
    SumZero(Counted, Pair(s.pcs, g.matches));
  }

  /** Moving callback `i` changes the three totals by the difference of that callback. */
  lemma Moved(g: Group, s: State, i: nat, pc: Pc)
    requires Fits(g, s) && i < |s.pcs|
    ensures Sum(Ended, s.pcs[i := pc]) == Sum(Ended, s.pcs) - Ended(s.pcs[i]) + Ended(pc)
    ensures Sum(Sending, s.pcs[i := pc]) == Sum(Sending, s.pcs) - Sending(s.pcs[i]) + Sending(pc)
    ensures Sum(Counted, Pair(s.pcs[i := pc], g.matches)) ==
            Sum(Counted, Pair(s.pcs, g.matches)) - Counted((s.pcs[i], g.matches[i])) + Counted((pc, g.matches[i]))
    ensures Sum(Sending, s.pcs) >= Sending(s.pcs[i])
  {
    SumUpdate(Ended, s.pcs, i, pc);
    SumUpdate(Sending, s.pcs, i, pc);
    SumAtLeast(Sending, s.pcs, i);
    var pairs := Pair(s.pcs, g.matches);
    SumUpdate(Counted, pairs, i, (pc, g.matches[i]));
    assert Pair(s.pcs[i := pc], g.matches) == pairs[i := (pc, g.matches[i])];
  }

  /** Someone is still hot after the step, as long as nobody has completed the group. */
  lemma StepHot(g: Group, s: State, i: nat)
    requires g.Valid() && Inv(g, s)
    ensures var s' := Step(g, s, i);
            !s'.completed && s'.endCount == |g.matches| ==> SomeHot(s')
  {
    var s' := Step(g, s, i);
    if i < |s.pcs| && !s'.completed && s'.endCount == |g.matches| {
      if s.pcs[i] == AddEnd {
        assert Hot(s'.pcs[i]);
      } else {
        var k :| 0 <= k < |s.pcs| && Hot(s.pcs[k]);
        assert Hot(s'.pcs[k]);
      }
    }
  }

  /** What the step of one callback does to the counters, in terms of that callback alone. */
  lemma StepOwn(g: Group, s: State, i: nat)
    requires Places(g, s) && i < |s.pcs| && (Sending(s.pcs[i]) == 1 ==> s.completed)
    ensures var s' := Step(g, s, i);
            && s'.pcs == s.pcs[i := s'.pcs[i]]
            && s'.endCount - s.endCount == Ended(s'.pcs[i]) - Ended(s.pcs[i])
            && s'.matched - s.matched == Counted((s'.pcs[i], g.matches[i])) - Counted((s.pcs[i], g.matches[i]))
            && |s'.channel| - |s.channel| + Sending(s'.pcs[i]) - Sending(s.pcs[i]) ==
               One(s'.completed) - One(s.completed)
  {
    assert s.pcs[i := s.pcs[i]] == s.pcs;
  }

  lemma StepTotals(g: Group, s: State, i: nat)
    requires Totals(g, s) && Places(g, s)
    ensures Totals(g, Step(g, s, i))
  {
    if i < |s.pcs| {
      var s' := Step(g, s, i);
      Moved(g, s, i, s'.pcs[i]);
      StepOwn(g, s, i);
    }
  }

  lemma StepPlaces(g: Group, s: State, i: nat)
    requires Places(g, s)
    ensures Places(g, Step(g, s, i))
  {
    if i < |s.pcs| {
      var s' := Step(g, s, i);
      assert s'.pcs == s.pcs[i := s'.pcs[i]];
    }
  }

  lemma StepInv(g: Group, s: State, i: nat)
    requires g.Valid() && Inv(g, s)
    ensures Inv(g, Step(g, s, i))
  {
    StepTotals(g, s, i);
    StepPlaces(g, s, i);
    StepHot(g, s, i);
  }

  lemma {:induction false} ExecInv(g: Group, s: State, schedule: seq<nat>)
    requires g.Valid() && Inv(g, s)
    ensures Inv(g, Exec(g, s, schedule))
    decreases |schedule|
  {
    if schedule == [] {
    } else {
      StepInv(g, s, schedule[0]);
      ExecInv(g, Step(g, s, schedule[0]), schedule[1..]);
    }
  }

  lemma {:induction false} CountedBound(pcs: seq<Pc>, matches: seq<bool>)
    requires |pcs| == |matches|
    ensures Sum(Counted, Pair(pcs, matches)) <= Matching(matches)
  {
    if pcs == [] {
    } else {
      CountedBound(pcs[1..], matches[1..]);
      assert Pair(pcs, matches)[1..] == Pair(pcs[1..], matches[1..]);
    }
  }

  lemma AtMostOne(channel: seq<bool>)
    requires |channel| <= 1
    ensures channel == [] || channel == [true] || channel == [false]
  {
    if channel == [] {
    } else {
      assert if channel[0] then channel == [true] else channel == [false];
    }
  }

  /**
  In every interleaving: never more than one verdict, a Success only with enough matching children, and
  exactly one verdict once all callbacks are over.
  */
  lemma OneVerdict(g: Group, schedule: seq<nat>)
    requires g.Valid()
    ensures var s := Exec(g, Init(g), schedule);
            && (s.channel == [] || s.channel == [true] || s.channel == [false])
            && (s.channel == [true] ==> Matching(g.matches) >= g.need)
            && (Over(s) ==> s.channel != [])
  {
    InitInv(g);
    ExecInv(g, Init(g), schedule);
    var s := Exec(g, Init(g), schedule);
    CountedBound(s.pcs, g.matches);
    AtMostOne(s.channel);
    if Over(s) {
      SumZero(Sending, s.pcs);
      if !s.completed {
        SumBound(Ended, s.pcs);
      }
    }
  }

  // ---------- a Success wraps the results that justify it ----------

  /** The matching children whose results went into the verdict. */
  function Backing(g: Group, slots: set<nat>): set<nat>
  {
    set i | i in slots && i < |g.matches| && g.matches[i]
  }

  function CountedSet(pairs: seq<(Pc, bool)>, n: nat): set<nat>
    requires n <= |pairs|
  {
    set i | 0 <= i < n && Counted(pairs[i]) == 1
  }

  lemma CountedNext(pairs: seq<(Pc, bool)>, n: nat)
    requires n < |pairs|
    ensures CountedSet(pairs, n + 1) == CountedSet(pairs, n) + if Counted(pairs[n]) == 1 then {n} else {}
  {
  }

  lemma {:induction false} CountedCard(pairs: seq<(Pc, bool)>, n: nat)
    requires n <= |pairs|
    ensures |CountedSet(pairs, n)| == Sum(Counted, pairs[..n])
  {
    if n == 0 {
    } else {
      CountedCard(pairs, n - 1);
      assert pairs[..n] == pairs[..n - 1] + [pairs[n - 1]];
      SumAppend(Counted, pairs[..n - 1], pairs[n - 1]);
      CountedNext(pairs, n - 1);
    }
  }

  lemma {:induction false} SubsetCard(a: set<nat>, b: set<nat>)
    requires a <= b
    ensures |a| <= |b|
  {
    if a == {} {
    } else {
      var x :| x in a;
      SubsetCard(a - {x}, b - {x});
    }
  }

  /** Enough matching results are in their slots once `matched` has reached `need`. */
  lemma MatchedBacking(g: Group, s: State)
    requires Totals(g, s)
    ensures |Backing(g, FilledSlots(s))| >= s.matched
  {
    var pairs := Pair(s.pcs, g.matches);
    CountedCard(pairs, |pairs|);
    assert pairs[..|pairs|] == pairs;
    assert CountedSet(pairs, |pairs|) <= Backing(g, FilledSlots(s));
    SubsetCard(CountedSet(pairs, |pairs|), Backing(g, FilledSlots(s)));
  }

  ghost predicate Backed(g: Group, s: State)
  {
    s.channel == [true] ==> |Backing(g, s.wrapped)| >= g.need
  }

  lemma {:induction false} ExecBacked(g: Group, s: State, schedule: seq<nat>)
    requires g.Valid() && Inv(g, s) && Backed(g, s)
    ensures Backed(g, Exec(g, s, schedule))
    decreases |schedule|
  {
    if schedule == [] {
    } else {
      StepInv(g, s, schedule[0]);
      MatchedBacking(g, s);
      ExecBacked(g, Step(g, s, schedule[0]), schedule[1..]);
    }
  }

  /** A Success verdict wraps the results of at least `need` matching children. */
  lemma SuccessIsBacked(g: Group, schedule: seq<nat>)
    requires g.Valid()
    ensures var s := Exec(g, Init(g), schedule);
            s.channel == [true] ==> |Backing(g, s.wrapped)| >= g.need
  {
    InitInv(g);
    ExecBacked(g, Init(g), schedule);
  }

  // ---------- exactly when the verdict does not depend on the interleaving ----------

  /** In no interleaving is a verdict sent that differs from "at least `need` children match". */
  ghost predicate AlwaysRight(g: Group)
  {
    forall schedule :: RightAfter(g, schedule)
  }

  ghost predicate RightAfter(g: Group, schedule: seq<nat>)
  {
    var s := Exec(g, Init(g), schedule);
    s.channel == [] || s.channel == [Matching(g.matches) >= g.need]
  }

  lemma {:induction false} AllMatching(matches: seq<bool>)
    ensures Matching(matches) == |matches| <==> forall i :: 0 <= i < |matches| ==> matches[i]
  {
    SumBound(One, matches);
    if forall i :: 0 <= i < |matches| ==> matches[i] {
      forall b | b in matches
        ensures One(b) == 1
      {
      }
    } else {
      var i :| 0 <= i < |matches| && !matches[i];
      assert matches[i] in matches;
    }
  }

  /** When every child matches and one is enough, no callback ever gets to the failing branch. */
  ghost predicate NeverFails(s: State)
  {
    && (forall i :: 0 <= i < |s.pcs| ==> s.pcs[i] != LoadEnd && s.pcs[i] != CasFalse && s.pcs[i] != SendFalse)
    && false !in s.channel
  }

  lemma StepNeverFails(g: Group, s: State, i: nat)
    requires Totals(g, s) && NeverFails(s)
    requires g.need == 1 && forall i :: 0 <= i < |g.matches| ==> g.matches[i]
    ensures NeverFails(Step(g, s, i))
  {
    if i < |s.pcs| {
      SumAtLeast(Counted, Pair(s.pcs, g.matches), i);
      assert Step(g, s, i).pcs == s.pcs[i := Step(g, s, i).pcs[i]];
    }
  }

  lemma {:induction false} ExecNeverFails(g: Group, s: State, schedule: seq<nat>)
    requires g.Valid() && Inv(g, s) && NeverFails(s)
    requires g.need == 1 && forall i :: 0 <= i < |g.matches| ==> g.matches[i]
    ensures NeverFails(Exec(g, s, schedule))
    decreases |schedule|
  {
    if schedule == [] {
    } else {
      StepInv(g, s, schedule[0]);
      StepNeverFails(g, s, schedule[0]);
      ExecNeverFails(g, Step(g, s, schedule[0]), schedule[1..]);
    }
  }

  lemma RightWhenUnanimous(g: Group, schedule: seq<nat>)
    requires g.Valid() && g.need == 1 && Matching(g.matches) == |g.matches|
    ensures RightAfter(g, schedule)
  {
    InitInv(g);
    AllMatching(g.matches);
    OneVerdict(g, schedule);
    ExecNeverFails(g, Init(g), schedule);
  }

  lemma {:induction false} ExecConcat(g: Group, s: State, a: seq<nat>, b: seq<nat>)
    requires Fits(g, s)
    ensures Exec(g, s, a + b) == Exec(g, Exec(g, s, a), b)
    decreases |a|
  {
    if a == [] {
      assert a + b == b;
    } else {
      ExecConcat(g, Step(g, s, a[0]), a[1..], b);
      assert (a + b)[0] == a[0] && (a + b)[1..] == a[1..] + b;
    }
  }

  /** Callbacks below `k`, except `slow`, have added themselves to `endCount` and stopped there. */
  function Parked(g: Group, slow: nat, k: nat): (s: State)
    requires k <= |g.matches|
    ensures Fits(g, s)
  {
    State(seq(|g.matches|, i => if i < k && i != slow then AfterEnd(g, i) else LoadCompleted),
          if slow < k then k - 1 else k, 0, false, [], {})
  }

  function AfterEnd(g: Group, i: int): Pc
  {
    if 0 <= i < |g.matches| && g.matches[i] then AddMatch else LoadMatch
  }

  /** Three operations take a callback from its start to the place where it is parked. */
  lemma ParkOne(g: Group, s: State, i: nat)
    requires Fits(g, s) && i < |s.pcs| && s.pcs[i] == LoadCompleted && !s.completed
    ensures Exec(g, s, [i, i, i]) == Goto(s, i, AfterEnd(g, i)).(endCount := s.endCount + 1)
  {
    var s1 := Step(g, s, i);
    var s2 := Step(g, s1, i);
    var s3 := Step(g, s2, i);
    assert [i, i, i][1..] == [i, i] && [i, i][1..] == [i] && [i][1..] == [];
    assert Exec(g, s2, [i]) == s3 && Exec(g, s1, [i, i]) == s3;
    assert s3.pcs == s.pcs[i := AfterEnd(g, i)];
  }

  lemma {:induction false} ParkAll(g: Group, slow: nat, k: nat) returns (schedule: seq<nat>)
    requires slow < |g.matches| && k <= |g.matches|
    ensures Exec(g, Init(g), schedule) == Parked(g, slow, k)
  {
    if k == 0 {
      schedule := [];
      assert Init(g).pcs == Parked(g, slow, 0).pcs;
    } else {
      var before := ParkAll(g, slow, k - 1);
      if k - 1 == slow {
        schedule := before;
        assert Parked(g, slow, k).pcs == Parked(g, slow, k - 1).pcs;
      } else {
        schedule := before + [k - 1, k - 1, k - 1];
        ExecConcat(g, Init(g), before, [k - 1, k - 1, k - 1]);
        ParkOne(g, Parked(g, slow, k - 1), k - 1);
        assert Parked(g, slow, k).pcs == Parked(g, slow, k - 1).pcs[k - 1 := AfterEnd(g, k - 1)];
      }
    }
  }

  /** The state in which `slow` has just looked at `matched`: too early to see the parked matches. */
  lemma SlowLooks(g: Group, s: State, slow: nat) returns (schedule: seq<nat>, s': State)
    requires g.Valid() && slow < |g.matches| && (g.need >= 2 || !g.matches[slow])
    requires Fits(g, s) && s == Parked(g, slow, |g.matches|)
    ensures s' == Exec(g, s, schedule)
    ensures s'.pcs[slow] == LoadEnd && s'.endCount == |g.matches| && !s'.completed && s'.channel == []
  {
    ParkOne(g, s, slow);
    var s3 := Exec(g, s, [slow, slow, slow]);
    var s4 := Step(g, s3, slow);
    if g.matches[slow] {
      schedule := [slow, slow, slow] + [slow, slow];
      s' := Step(g, s4, slow);
      assert [slow, slow][1..] == [slow];
      assert Exec(g, s4, [slow]) == s';
      assert Exec(g, s3, [slow, slow]) == s';
      ExecConcat(g, s, [slow, slow, slow], [slow, slow]);
    } else {
      schedule := [slow, slow, slow] + [slow];
      s' := s4;
      assert Exec(g, s3, [slow]) == s4;
      ExecConcat(g, s, [slow, slow, slow], [slow]);
    }
  }

  /** A schedule that makes the group fail, whatever the parked callbacks would have added. */
  lemma WrongFailure(g: Group, slow: nat) returns (schedule: seq<nat>)
    requires g.Valid() && slow < |g.matches| && (g.need >= 2 || !g.matches[slow])
    ensures Exec(g, Init(g), schedule).channel == [false]
  {
    var before := ParkAll(g, slow, |g.matches|);
    var look, s := SlowLooks(g, Parked(g, slow, |g.matches|), slow);
    ExecConcat(g, Init(g), before, look);
    var fail := [slow, slow, slow];
    var s1 := Step(g, s, slow);
    var s2 := Step(g, s1, slow);
    var s3 := Step(g, s2, slow);
    assert fail[1..] == [slow, slow] && [slow, slow][1..] == [slow];
    assert Exec(g, s2, [slow]) == s3 && Exec(g, s1, [slow, slow]) == s3 && Exec(g, s, fail) == s3;
    schedule := before + look + fail;
    ExecConcat(g, Init(g), before + look, fail);
  }

  /**
  The verdict is right in every interleaving if and only if too few children match for any Success, or
  every child matches and a single match is enough. In all other groups some interleaving fails although
  enough children match.
  */
  lemma RightIff(g: Group)
    requires g.Valid()
    ensures AlwaysRight(g) <==>
            Matching(g.matches) < g.need || (g.need == 1 && Matching(g.matches) == |g.matches|)
  {
    SumBound(One, g.matches);
    if Matching(g.matches) < g.need {
      forall schedule
        ensures RightAfter(g, schedule)
      {
        OneVerdict(g, schedule);
      }
    } else if g.need == 1 && Matching(g.matches) == |g.matches| {
      forall schedule
        ensures RightAfter(g, schedule)
      {
        RightWhenUnanimous(g, schedule);
      }
    } else {
      AllMatching(g.matches);
      var slow: nat := 0;
      if g.need == 1 {
        slow :| slow < |g.matches| && !g.matches[slow];
      }
      var schedule := WrongFailure(g, slow);
      assert !RightAfter(g, schedule);
    }
  }
}
