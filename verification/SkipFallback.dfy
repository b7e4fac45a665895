/**
The skip-fallback aspect: a timed failure counter per chain and node. The class keeps the nested maps;
its ghost history says what happened, and the counters are tied to that history.
*/
module SkipFallbacks {
  import opened Messages

  datatype NodeError = NodeError(errorCount: int, lastErrorTime: int)

  /** What became of a message that arrived at a node. */
  datatype Verdict = Pass | Expired | Skip

  datatype Event =
    | Entry(chain: string, node: string, now: int, verdict: Verdict)
    | Told(chain: string, node: string, now: int, relation: string)
    | ChainGone(chain: string)
    | NodeReloaded(chain: string, node: string)

  // ---------- what a history says ----------

  predicate Concerns(e: Event, chain: string, node: string)
  {
    e.chain == chain && (e.ChainGone? || e.node == node)
  }

  /** The failure records of a node are dropped: by a reload, by a destroy, or because they are too old. */
  predicate Clears(e: Event, chain: string, node: string)
  {
    Concerns(e, chain, node) && (e.ChainGone? || e.NodeReloaded? || (e.Entry? && e.verdict == Expired))
  }

  predicate Fails(e: Event, chain: string, node: string)
  {
    Concerns(e, chain, node) && e.Told? && e.relation == FAILURE
  }

  /** How many events there are up to the last clearing one, including it. */
  function LastClear(h: seq<Event>, chain: string, node: string): (n: nat)
    ensures n <= |h| && (n > 0 ==> Clears(h[n - 1], chain, node))
    ensures forall k :: n <= k < |h| ==> !Clears(h[k], chain, node)
  {
    if h == [] then 0 else
    if Clears(h[|h| - 1], chain, node) then |h| else LastClear(h[..|h| - 1], chain, node)
  }

  /** The times at which the node told Failure. */
  function Failures(h: seq<Event>, chain: string, node: string): seq<int>
  {
    if h == [] then [] else
    Failures(h[..|h| - 1], chain, node) + (if Fails(h[|h| - 1], chain, node) then [h[|h| - 1].now] else [])
  }

  /** The times at which the node told Failure since its last clear. */
  function Tally(h: seq<Event>, chain: string, node: string): seq<int>
  {
    Failures(h[LastClear(h, chain, node)..], chain, node)
  }

  function Latest(times: seq<int>): int
    requires times != []
  {
    times[|times| - 1]
  }

  /** The rule: enough failures, the latest of them recent. */
  function Decide(times: seq<int>, now: int, limit: int, duration: int): Verdict
  {
    if times != [] && |times| >= limit
    then if times[|times| - 1] + duration < now then Expired else Skip
    else Pass
  }

  /** Every arrival was decided by the failures told since the last clear. */
  ghost predicate Decided(h: seq<Event>, limit: int, duration: int)
  {
    forall k :: 0 <= k < |h| && h[k].Entry? ==>
      h[k].verdict == Decide(Tally(h[..k], h[k].chain, h[k].node), h[k].now, limit, duration)
  }

  /** Every skipped arrival told Failure, and that was recorded. */
  ghost predicate SkipsTold(h: seq<Event>)
  {
    forall k :: 0 <= k < |h| && h[k].Entry? && h[k].verdict == Skip ==>
      k + 1 < |h| && Fails(h[k + 1], h[k].chain, h[k].node)
  }

  lemma TallyNext(h: seq<Event>, e: Event, chain: string, node: string)
    ensures Tally(h + [e], chain, node) ==
            if Clears(e, chain, node) then [] else
            Tally(h, chain, node) + if Fails(e, chain, node) then [e.now] else []
  {
    var h' := h + [e];
    assert h'[..|h|] == h;
    if !Clears(e, chain, node) {
      var n := LastClear(h, chain, node);
      assert LastClear(h', chain, node) == n;
      assert h'[n..] == h[n..] + [e];
      assert h'[n..][..|h'[n..]| - 1] == h[n..];
    }
  }

  /** An arrival that does not clear, answered with Failure. */
  lemma TallyFailure(h: seq<Event>, chain: string, node: string, now: int, tellAt: int, verdict: Verdict)
    requires verdict != Expired
    ensures Tally(h + [Entry(chain, node, now, verdict)] + [Told(chain, node, tellAt, FAILURE)], chain, node) ==
            Tally(h, chain, node) + [tellAt]
  {
    var arrival, answer := Entry(chain, node, now, verdict), Told(chain, node, tellAt, FAILURE);
    assert !Clears(arrival, chain, node) && !Fails(arrival, chain, node);
    assert !Clears(answer, chain, node) && Fails(answer, chain, node);
    TallyNext(h, arrival, chain, node);
    TallyNext(h + [arrival], answer, chain, node);
  }

  /** Only the events of the node itself, of its reloads and of its chain's end matter. */
  lemma {:induction false} OthersDoNotCount(h: seq<Event>, e: Event, chain: string, node: string)
    requires !Concerns(e, chain, node)
    ensures Tally(h + [e], chain, node) == Tally(h, chain, node)
  {
    TallyNext(h, e, chain, node);
  }

  // ---------- when a message is skipped, by counting events ----------

  /** The events since the last clear at which the node told Failure. */
  ghost function FailuresSince(h: seq<Event>, chain: string, node: string): set<nat>
  {
    set k | LastClear(h, chain, node) <= k < |h| && Fails(h[k], chain, node)
  }

  ghost predicate LatestFailure(h: seq<Event>, chain: string, node: string, k: nat)
  {
    k in FailuresSince(h, chain, node) && forall m :: m in FailuresSince(h, chain, node) ==> m <= k
  }

  /** At least one failure and at least `limit` of them, and no more than `duration` since the latest. */
  ghost predicate MustSkip(h: seq<Event>, chain: string, node: string, now: int, limit: int, duration: int)
  {
    && |FailuresSince(h, chain, node)| >= limit
    && exists k: nat :: LatestFailure(h, chain, node, k) && now <= h[k].now + duration
  }

  lemma FailuresNext(h: seq<Event>, e: Event, chain: string, node: string)
    ensures FailuresSince(h + [e], chain, node) ==
            if Clears(e, chain, node) then {} else
            FailuresSince(h, chain, node) + if Fails(e, chain, node) then {|h|} else {}
  {
    var h' := h + [e];
    assert h'[..|h|] == h && h'[|h|] == e;
    if !Clears(e, chain, node) {
      assert LastClear(h', chain, node) == LastClear(h, chain, node);
    }
  }

  /** The tally has as many entries as there are such events, and its last one is the latest of them. */
  ghost predicate Tallied(h: seq<Event>, chain: string, node: string, k: nat)
  {
    && |Tally(h, chain, node)| == |FailuresSince(h, chain, node)|
    && (Tally(h, chain, node) != [] ==>
          LatestFailure(h, chain, node, k) && h[k].now == Latest(Tally(h, chain, node)))
  }

  lemma TalliedNext(h: seq<Event>, e: Event, chain: string, node: string, k: nat)
    requires Tallied(h, chain, node, k)
    ensures Tallied(h + [e], chain, node, if Fails(e, chain, node) then |h| else k)
  {
    TallyNext(h, e, chain, node);
    FailuresNext(h, e, chain, node);
    assert |h| !in FailuresSince(h, chain, node);
  }

  lemma {:induction false} TallyCounts(h: seq<Event>, chain: string, node: string) returns (k: nat)
    ensures Tallied(h, chain, node, k)
  {
    if h == [] {
      assert FailuresSince(h, chain, node) == {};
      k := 0;
    } else {
      var n := |h| - 1;
      k := TallyCounts(h[..n], chain, node);
      TalliedNext(h[..n], h[n], chain, node, k);
      k := if Fails(h[n], chain, node) then n else k;
      assert h == h[..n] + [h[n]];
    }
  }

  /** The rule skips exactly when it must. */
  lemma SkipsExactly(h: seq<Event>, chain: string, node: string, now: int, limit: int, duration: int)
    ensures Decide(Tally(h, chain, node), now, limit, duration) == Skip <==>
            MustSkip(h, chain, node, now, limit, duration)
    ensures Decide(Tally(h, chain, node), now, limit, duration) == Expired <==>
            && FailuresSince(h, chain, node) != {} && |FailuresSince(h, chain, node)| >= limit
            && !MustSkip(h, chain, node, now, limit, duration)
  {
    var k := TallyCounts(h, chain, node);
    if Tally(h, chain, node) != [] {
      assert forall m: nat :: LatestFailure(h, chain, node, m) ==> m == k;
    } else {
      assert FailuresSince(h, chain, node) == {};
    }
  }

  /** What an arrival adds to the history. */
  function Arrival(chain: string, node: string, now: int, tellAt: int, verdict: Verdict): seq<Event>
  {
    [Entry(chain, node, now, verdict)] + if verdict == Skip then [Told(chain, node, tellAt, FAILURE)] else []
  }

  lemma SkipsToldNext(h: seq<Event>, chain: string, node: string, now: int, tellAt: int, verdict: Verdict)
    requires SkipsTold(h)
    ensures SkipsTold(h + Arrival(chain, node, now, tellAt, verdict))
  {
  }

  // ---------- whole histories ----------

  ghost predicate Clocked(h: seq<Event>)
  {
    forall i, j :: 0 <= i < j < |h| && Timed(h[i]) && Timed(h[j]) ==> h[i].now <= h[j].now
  }

  predicate Timed(e: Event)
  {
    e.Entry? || e.Told?
  }

  predicate Arrives(e: Event, chain: string, node: string)
  {
    e.Entry? && e.chain == chain && e.node == node
  }

  /** From event `i` on, no reload or destroy touches the node. */
  ghost predicate Undisturbed(h: seq<Event>, i: nat, chain: string, node: string)
  {
    forall k :: i <= k < |h| && Concerns(h[k], chain, node) ==> Timed(h[k])
  }

  /** From event `i` on, no arrival comes later than `duration` after some arrival before it. */
  ghost predicate Steady(h: seq<Event>, i: nat, chain: string, node: string, duration: int)
  {
    forall k :: i < k < |h| && Arrives(h[k], chain, node) ==>
      exists j :: i <= j < k && Arrives(h[j], chain, node) && h[k].now <= h[j].now + duration
  }

  ghost predicate NoClear(h: seq<Event>, i: nat, k: nat, chain: string, node: string)
    requires i <= k <= |h|
  {
    forall m :: i <= m < k ==> !Clears(h[m], chain, node)
  }

  /** With no clear in between, later failures add to the tally. */
  lemma {:induction false} TallyGrows(h: seq<Event>, i: nat, k: nat, chain: string, node: string)
    requires i <= k <= |h| && NoClear(h, i, k, chain, node)
    ensures |Tally(h[..i], chain, node)| <= |Tally(h[..k], chain, node)|
    decreases k - i
  {
    if i == k {
    } else {
      TallyGrows(h, i, k - 1, chain, node);
      TallyUpTo(h, k, chain, node);
    }
  }

  /** The latest failure is no earlier than any failure since the last clear. */
  lemma {:induction false} LatestAtLeast(h: seq<Event>, m: nat, k: nat, chain: string, node: string)
    requires Clocked(h) && m < k <= |h| && Fails(h[m], chain, node) && NoClear(h, m, k, chain, node)
    ensures var times := Tally(h[..k], chain, node);
            times != [] && h[m].now <= times[|times| - 1]
    decreases k - m
  {
    var last := h[k - 1];
    TallyUpTo(h, k, chain, node);
    if m + 1 == k {
    } else {
      LatestAtLeast(h, m, k - 1, chain, node);
      if Fails(last, chain, node) {
        assert Timed(h[m]) && Timed(last);
      }
    }
  }

  lemma TallyUpTo(h: seq<Event>, k: nat, chain: string, node: string)
    requires 0 < k <= |h| && !Clears(h[k - 1], chain, node)
    ensures Tally(h[..k], chain, node) ==
            Tally(h[..k - 1], chain, node) + if Fails(h[k - 1], chain, node) then [h[k - 1].now] else []
  {
    assert h[..k] == h[..k - 1] + [h[k - 1]];
    TallyNext(h[..k - 1], h[k - 1], chain, node);
  }

  /**
  Each skip restarts the window: once a node is skipped, and as long as messages keep coming at gaps
  of at most the limit duration, every one of them is skipped, however long that goes on.
  */
  lemma {:induction false} SkippedForever(h: seq<Event>, i: nat, k: nat, chain: string, node: string,
                                          limit: int, duration: int)
    requires Decided(h, limit, duration) && SkipsTold(h) && Clocked(h)
    requires i <= k < |h| && Arrives(h[i], chain, node) && h[i].verdict == Skip
    requires Undisturbed(h, i, chain, node) && Steady(h, i, chain, node, duration)
    ensures Arrives(h[k], chain, node) ==> h[k].verdict == Skip
    decreases k
  {
    if i < k && Arrives(h[k], chain, node) {
      forall m | i <= m < k
        ensures !Clears(h[m], chain, node)
      {
        if Arrives(h[m], chain, node) {
          SkippedForever(h, i, m, chain, node, limit, duration);
        }
      }
      var j :| i <= j < k && Arrives(h[j], chain, node) && h[k].now <= h[j].now + duration;
      SkippedForever(h, i, j, chain, node, limit, duration);
      assert Fails(h[j + 1], chain, node) && j + 1 < k;
      TallyGrows(h, i, k, chain, node);
      LatestAtLeast(h, j + 1, k, chain, node);
      assert Timed(h[j]) && Timed(h[j + 1]);
    }
  }

  /** The arrival at `k` comes within `duration` of some failure that the node told before. */
  ghost predicate Fed(h: seq<Event>, k: nat, chain: string, node: string, duration: int)
    requires k < |h| && h[k].Entry?
  {
    exists m :: 0 <= m < k && Fails(h[m], chain, node) && h[k].now <= h[m].now + duration
  }

  /** Every failure in a tally was told at some earlier event. */
  lemma {:induction false} ToldBefore(h: seq<Event>, k: nat, chain: string, node: string, time: int) returns (m: nat)
    requires k <= |h| && time in Tally(h[..k], chain, node)
    ensures m < k && Fails(h[m], chain, node) && h[m].now == time
    decreases k
  {
    LastOrBefore(h, k, chain, node, time);
    if Fails(h[k - 1], chain, node) && h[k - 1].now == time {
      m := k - 1;
    } else {
      m := ToldBefore(h, k - 1, chain, node, time);
    }
  }

  lemma LastOrBefore(h: seq<Event>, k: nat, chain: string, node: string, time: int)
    requires k <= |h| && time in Tally(h[..k], chain, node)
    ensures k > 0
    ensures (Fails(h[k - 1], chain, node) && h[k - 1].now == time) || time in Tally(h[..k - 1], chain, node)
  {
    assert h[..k] == h[..k - 1] + [h[k - 1]];
    TallyNext(h[..k - 1], h[k - 1], chain, node);
  }

  /** From event `i` on, every arrival at the node is skipped. */
  ghost predicate AllSkipped(h: seq<Event>, i: nat, chain: string, node: string)
  {
    forall k :: i <= k < |h| && Arrives(h[k], chain, node) ==> h[k].verdict == Skip
  }

  ghost predicate AllFed(h: seq<Event>, i: nat, chain: string, node: string, duration: int)
  {
    forall k :: i < k < |h| && Arrives(h[k], chain, node) ==> Fed(h, k, chain, node, duration)
  }

  lemma SkippedIsFed(h: seq<Event>, k: nat, chain: string, node: string, limit: int, duration: int)
    requires Decided(h, limit, duration) && k < |h| && Arrives(h[k], chain, node) && h[k].verdict == Skip
    ensures Fed(h, k, chain, node, duration)
  {
    var times := Tally(h[..k], chain, node);
    var m := ToldBefore(h, k, chain, node, times[|times| - 1]);
  }

  /** A fed arrival is skipped if all arrivals since the skip at `i` were. */
  lemma FedIsSkipped(h: seq<Event>, i: nat, k: nat, chain: string, node: string, limit: int, duration: int)
    requires Decided(h, limit, duration) && SkipsTold(h) && Clocked(h) && Undisturbed(h, i, chain, node)
    requires i < k < |h| && Arrives(h[i], chain, node) && h[i].verdict == Skip && AllSkipped(h[..k], i, chain, node)
    requires Arrives(h[k], chain, node) && Fed(h, k, chain, node, duration)
    ensures h[k].verdict == Skip
  {
    forall m | i <= m < k
      ensures !Clears(h[m], chain, node)
    {
      assert h[..k][m] == h[m];
    }
    var m :| 0 <= m < k && Fails(h[m], chain, node) && h[k].now <= h[m].now + duration;
    assert Fails(h[i + 1], chain, node) && i + 1 < k;
    assert Timed(h[m]) && Timed(h[i + 1]);
    TallyGrows(h, i, k, chain, node);
    LatestAtLeast(h, if m < i + 1 then i + 1 else m, k, chain, node);
  }

  /** The first arrival from `i` on that is not skipped. */
  lemma {:induction false} FirstPassed(h: seq<Event>, i: nat, n: nat, chain: string, node: string) returns (k: nat)
    requires i <= n <= |h| && !AllSkipped(h[..n], i, chain, node)
    ensures i <= k < n && Arrives(h[k], chain, node) && h[k].verdict != Skip && AllSkipped(h[..k], i, chain, node)
    decreases n
  {
    k := n - 1;
    if !AllSkipped(h[..k], i, chain, node) {
      k := FirstPassed(h, i, k, chain, node);
    } else {
      assert forall m :: 0 <= m < k ==> h[..n][m] == h[..k][m];
    }
  }

  /**
  The exact condition: after a skip, and with no reload or destroy, a node is never let through again if and
  only if every later arrival comes within the limit duration of a failure told before it. A skip is itself
  such a failure, so arrivals in short enough succession are enough.
  */
  lemma NeverRecoversIff(h: seq<Event>, i: nat, chain: string, node: string, limit: int, duration: int)
    requires Decided(h, limit, duration) && SkipsTold(h) && Clocked(h) && Undisturbed(h, i, chain, node)
    requires i < |h| && Arrives(h[i], chain, node) && h[i].verdict == Skip
    ensures AllSkipped(h, i, chain, node) <==> AllFed(h, i, chain, node, duration)
  {
    if AllSkipped(h, i, chain, node) {
      forall k | i < k < |h| && Arrives(h[k], chain, node)
        ensures Fed(h, k, chain, node, duration)
      {
        SkippedIsFed(h, k, chain, node, limit, duration);
      }
    }
    if AllFed(h, i, chain, node, duration) {
      assert h[..|h|] == h;
      if !AllSkipped(h, i, chain, node) {
        var k := FirstPassed(h, i, |h|, chain, node);
        FedIsSkipped(h, i, k, chain, node, limit, duration);
      }
    }
  }

  /** Messages with their times of arrival and answer: when the one before number `k` was answered. */
  function Answered(times: seq<(int, int)>, k: nat, start: int): int
    requires k <= |times|
  {
    if k == 0 then start else times[k - 1].1
  }

  /** Each message arrives within `duration` of the answer to the one before. */
  ghost predicate Close(times: seq<(int, int)>, start: int, duration: int)
  {
    forall k :: 0 <= k < |times| ==> times[k].0 <= Answered(times, k, start) + duration
  }

  /** Failure, told `n` times. */
  function Refusals(n: nat): (told: seq<seq<string>>)
    ensures |told| == n && forall k :: 0 <= k < n ==> told[k] == [FAILURE]
  {
    if n == 0 then [] else Refusals(n - 1) + [[FAILURE]]
  }

  /** What a node does when it is let run. */
  datatype Outcome = Tells(relation: string) | Panics

  // ---------- the aspect ----------

  class SkipFallback {
    const errorCountLimit: int
    /** In milliseconds. */
    const limitDuration: int
    var cache: map<string, map<string, NodeError>>
    ghost var history: seq<Event>

    constructor (errorCountLimit: int, limitDuration: int)
      ensures this.errorCountLimit == errorCountLimit && this.limitDuration == limitDuration
      ensures Valid() && history == []
    {
      this.errorCountLimit, this.limitDuration := errorCountLimit, limitDuration;
      cache, history := map[], [];
    }

    /** The stored counter is the number of failures since the last clear, and its time the latest of them. */
    ghost predicate Exact(chain: string, node: string)
      reads this
    {
      var times := Tally(history, chain, node);
      Find(cache, chain, node) == if times == [] then None else Some(NodeError(|times|, times[|times| - 1]))
    }

    ghost predicate Counted()
      reads this
    {
      (forall chain, node :: Exact(chain, node)) && Decided(history, errorCountLimit, limitDuration)
    }

    ghost predicate Valid()
      reads this
    {
      Counted() && SkipsTold(history)
    }

    /** Appends an event and brings the maps up to date with it. */
    method Store(ghost e: Event, cache': map<string, map<string, NodeError>>)
      requires Counted() && Follows(history, e, cache, cache')
      requires e.Entry? ==> e.verdict == Decide(Tally(history, e.chain, e.node), e.now, errorCountLimit, limitDuration)
      modifies this`cache, this`history
      ensures Counted() && history == old(history) + [e] && cache == cache'
    {
      DecidedNext(history, e, errorCountLimit, limitDuration);
      cache, history := cache', history + [e];
      forall chain, node
        ensures Exact(chain, node)
      {
        assert old(Exact(chain, node));
        TallyNext(old(history), e, chain, node);
        assert Follows(old(history), e, old(cache), cache');
      }
    }

    /** Counts a Failure; any other relation leaves the counters alone. */
    method After(chain: string, node: string, relation: string, now: int)
      requires Counted()
      modifies this`cache, this`history
      ensures Counted() && history == old(history) + [Told(chain, node, now, relation)]
      ensures old(Valid()) ==> Valid()
      ensures relation != "Failure" ==> cache == old(cache)
      ensures relation == "Failure" ==>
                var before := Find(old(cache), chain, node);
                var count := if before.Some? then before.value.errorCount else 0;
                Find(cache, chain, node) == Some(NodeError(count + 1, now))
    {
      var cache' := cache;
      if relation == FAILURE {
        cache' := CountOne(chain, node, now);
      }
      Store(Told(chain, node, now, relation), cache');
    }

    /** The record of a node with one failure more. */
    method CountOne(chain: string, node: string, now: int) returns (cache': map<string, map<string, NodeError>>)
      requires Counted()
      ensures Follows(history, Told(chain, node, now, FAILURE), cache, cache')
      ensures var before := Find(cache, chain, node);
              var count := if before.Some? then before.value.errorCount else 0;
              Find(cache', chain, node) == Some(NodeError(count + 1, now))
    {
      var nodes := if chain in cache then cache[chain] else map[];
      var count := if node in nodes then nodes[node].errorCount else 0;
      cache' := cache[chain := nodes[node := NodeError(count + 1, now)]];
      assert Exact(chain, node);
    }

    /**
    Decides about a message that has arrived at a node. A skipped message is told to Failure on the
    spot, and that is recorded like any other failure.
    */
    method Around(chain: string, node: string, now: int, tellAt: int) returns (goOn: bool)
      requires Valid()
      modifies this`cache, this`history
      ensures Valid()
      ensures var verdict := Decide(Tally(old(history), chain, node), now, errorCountLimit, limitDuration);
              && goOn == (verdict != Skip)
              && history == old(history) + Arrival(chain, node, now, tellAt, verdict)
      ensures !goOn <==> MustSkip(old(history), chain, node, now, errorCountLimit, limitDuration)
      ensures |FailuresSince(old(history), chain, node)| < errorCountLimit ==> goOn && cache == old(cache)
    {
      ghost var verdict := Decide(Tally(history, chain, node), now, errorCountLimit, limitDuration);
      goOn := Enter(chain, node, now);
      if !goOn {
        After(chain, node, FAILURE, tellAt);
      }
      SkipsToldNext(old(history), chain, node, now, tellAt, verdict);
    }

    /** The decision is made and remembered. */
    method Enter(chain: string, node: string, now: int) returns (goOn: bool)
      requires Counted()
      modifies this`cache, this`history
      ensures Counted()
      ensures var verdict := Decide(Tally(old(history), chain, node), now, errorCountLimit, limitDuration);
              goOn == (verdict != Skip) && history == old(history) + [Entry(chain, node, now, verdict)]
      ensures !goOn <==> MustSkip(old(history), chain, node, now, errorCountLimit, limitDuration)
      ensures |FailuresSince(old(history), chain, node)| < errorCountLimit ==> goOn && cache == old(cache)
    {
      ghost var verdict := Decide(Tally(history, chain, node), now, errorCountLimit, limitDuration);
      var cache';
      goOn, cache' := Judge(chain, node, now);
      Store(Entry(chain, node, now, verdict), cache');
    }

    /** The decision itself, from the stored record: what was asked and what is left of the record. */
    method Judge(chain: string, node: string, now: int)
      returns (goOn: bool, cache': map<string, map<string, NodeError>>)
      requires Counted()
      ensures var verdict := Decide(Tally(history, chain, node), now, errorCountLimit, limitDuration);
              goOn == (verdict != Skip) && Follows(history, Entry(chain, node, now, verdict), cache, cache')
      ensures !goOn <==> MustSkip(history, chain, node, now, errorCountLimit, limitDuration)
      ensures |FailuresSince(history, chain, node)| < errorCountLimit ==> goOn && cache' == cache
      ensures (goOn && FailuresSince(history, chain, node) != {} &&
               |FailuresSince(history, chain, node)| >= errorCountLimit) ==> Find(cache', chain, node) == None
    {
      SkipsExactly(history, chain, node, now, errorCountLimit, limitDuration);
      ghost var latest := TallyCounts(history, chain, node);
      goOn, cache' := true, cache;
      assert Exact(chain, node);
      if chain in cache && node in cache[chain] && cache[chain][node].errorCount >= errorCountLimit {
        if cache[chain][node].lastErrorTime + limitDuration < now {
          cache' := cache[chain := cache[chain] - {node}];
        } else {
          goOn := false;
        }
      }
    }

    /** A reload of a node drops its failures, whether or not the reload succeeded. */
    method OnReloadNode(chain: string, node: string)
      requires Valid()
      modifies this`cache, this`history
      ensures Valid() && history == old(history) + [NodeReloaded(chain, node)]
      ensures Tally(history, chain, node) == [] && Find(cache, chain, node) == None
      ensures forall c, n :: c != chain || n != node ==> Find(cache, c, n) == Find(old(cache), c, n)
    {
      TallyNext(history, NodeReloaded(chain, node), chain, node);
      Store(NodeReloaded(chain, node), if chain in cache then cache[chain := cache[chain] - {node}] else cache);
    }

    /** A reload or the end of a chain drops the failures of all its nodes. */
    method OnChainGone(chain: string)
      requires Valid()
      modifies this`cache, this`history
      ensures Valid() && history == old(history) + [ChainGone(chain)]
      ensures forall node :: Tally(history, chain, node) == [] && Find(cache, chain, node) == None
      ensures forall c, n :: c != chain ==> Find(cache, c, n) == Find(old(cache), c, n)
    {
      Store(ChainGone(chain), cache - {chain});
      forall node
        ensures Tally(history, chain, node) == [] && Find(cache, chain, node) == None
      {
        TallyNext(old(history), ChainGone(chain), chain, node);
      }
    }

    /**
    A whole activation. Whatever the aspect decides, it ends in exactly one telling, except that a
    node that panics tells nothing and the incoming relation is recorded against its parent.
    */
    method Activate(chain: string, parent: string, node: string, incoming: string, outcome: Outcome,
                    now: int, tellAt: int)
      returns (told: seq<string>)
      requires Valid()
      modifies this`cache, this`history
      ensures Valid()
      ensures told == [FAILURE] || !MustSkip(old(history), chain, node, now, errorCountLimit, limitDuration)
      ensures !MustSkip(old(history), chain, node, now, errorCountLimit, limitDuration) ==>
                told == if outcome.Tells? then [outcome.relation] else []
      ensures var verdict := Decide(Tally(old(history), chain, node), now, errorCountLimit, limitDuration);
              && told == (if verdict == Skip then [FAILURE] else if outcome.Tells? then [outcome.relation] else [])
              && history == old(history) + [Entry(chain, node, now, verdict)] +
                 [if verdict == Skip then Told(chain, node, tellAt, FAILURE) else
                  if outcome.Tells? then Told(chain, node, tellAt, outcome.relation)
                  else Told(chain, parent, tellAt, incoming)]
    {
      var goOn := Around(chain, node, now, tellAt);
      if !goOn {
        return [FAILURE];
      }
      if outcome.Tells? {
        After(chain, node, outcome.relation, tellAt);
        return [outcome.relation];
      }
      After(chain, parent, incoming, tellAt);
      return [];
    }

    /** A message that is answered with Failure, by the node or by the aspect, before the failures have expired. */
    method ActivateAgain(chain: string, parent: string, node: string, incoming: string, outcome: Outcome,
                         now: int, tellAt: int)
      returns (told: seq<string>)
      requires Valid()
      requires var times := Tally(history, chain, node);
               (times != [] ==> now <= Latest(times) + limitDuration) &&
               ((times != [] && |times| >= errorCountLimit) || outcome == Tells(FAILURE))
      modifies this`cache, this`history
      ensures Valid() && told == [FAILURE]
      ensures Tally(history, chain, node) == Tally(old(history), chain, node) + [tellAt]
    {
      ghost var verdict := Decide(Tally(history, chain, node), now, errorCountLimit, limitDuration);
      told := Activate(chain, parent, node, incoming, outcome, now, tellAt);
      TallyFailure(old(history), chain, node, now, tellAt, verdict);
    }

    /**
    Any number of messages for a node that has failed often enough, each within the limit duration of the
    answer to the one before: not one of them reaches the node, whatever the node would do by now.
    */
    method Flood(chain: string, parent: string, node: string, incoming: string, outcome: Outcome,
                 times: seq<(int, int)>)
      returns (told: seq<seq<string>>)
      requires Valid() && Tally(history, chain, node) != [] && |Tally(history, chain, node)| >= errorCountLimit
      requires Close(times, Latest(Tally(history, chain, node)), limitDuration)
      modifies this`cache, this`history
      ensures Valid() && told == Refusals(|times|)
      ensures |Tally(history, chain, node)| == |Tally(old(history), chain, node)| + |times|
    {
      told := [];
      ghost var before := Tally(history, chain, node);
      ghost var now := before;
      for k := 0 to |times|
        invariant Valid() && told == Refusals(k)
        invariant now == Tally(history, chain, node) && |now| == |before| + k
        invariant Latest(now) == Answered(times, k, Latest(before))
      {
        assert times[k].0 <= Answered(times, k, Latest(before)) + limitDuration;
        var answer := ActivateAgain(chain, parent, node, incoming, outcome, times[k].0, times[k].1);
        now := now + [times[k].1];
        told := told + [answer];
      }
    }
  }

  function Find(cache: map<string, map<string, NodeError>>, chain: string, node: string): Option<NodeError>
  {
    if chain in cache && node in cache[chain] then Some(cache[chain][node]) else None
  }

  /** The new maps differ from the old ones by what the event means, at every key. */
  ghost predicate Follows(h: seq<Event>, e: Event, cache: map<string, map<string, NodeError>>,
                          cache': map<string, map<string, NodeError>>)
  {
    forall chain, node :: Find(cache', chain, node) ==
      if Clears(e, chain, node) then None else
      if Fails(e, chain, node) then Some(NodeError(|Tally(h, chain, node)| + 1, e.now)) else Find(cache, chain, node)
  }

  lemma DecidedNext(h: seq<Event>, e: Event, limit: int, duration: int)
    requires Decided(h, limit, duration)
    requires e.Entry? ==> e.verdict == Decide(Tally(h, e.chain, e.node), e.now, limit, duration)
    ensures Decided(h + [e], limit, duration)
  {
    var h' := h + [e];
    forall k | 0 <= k < |h'| && h'[k].Entry?
      ensures h'[k].verdict == Decide(Tally(h'[..k], h'[k].chain, h'[k].node), h'[k].now, limit, duration)
    {
      if k < |h| {
        assert h'[..k] == h[..k] && h'[k] == h[k];
      } else {
        assert h'[..k] == h;
      }
    }
  }

  /**
  A node fails `limit` times at time 0 and works ever after; messages keep coming, `duration` apart. It is
  never run again.
  */
  method NeverRecovers(limit: nat, duration: nat, n: nat) returns (told: seq<seq<string>>)
    requires limit > 0
    ensures told == Refusals(n)
  {
    var aspect := new SkipFallback(limit, duration);
    for k := 0 to limit
      invariant fresh(aspect) && aspect.Valid() && aspect.errorCountLimit == limit && aspect.limitDuration == duration
      invariant |Tally(aspect.history, "c", "n")| == k
      invariant k > 0 ==> Latest(Tally(aspect.history, "c", "n")) == 0
    {
      var answer := aspect.ActivateAgain("c", "p", "n", "", Tells(FAILURE), 0, 0);
    }
    var times := EveryDuration(0, duration, n);
    told := aspect.Flood("c", "p", "n", "", Tells(SUCCESS), times);
  }

  function EveryDuration(start: int, duration: nat, n: nat): (times: seq<(int, int)>)
    ensures |times| == n && forall k :: 0 <= k < n ==> times[k].0 == times[k].1
    ensures forall k :: 0 <= k < n ==> times[k].0 == (if k == 0 then start else times[k - 1].1) + duration
    decreases n
  {
    if n == 0 then [] else
    [(start + duration, start + duration)] + EveryDuration(start + duration, duration, n - 1)
  }
}
