/** The group nodes with each callback taken as one step: joining, filtering and merging results. */
module GroupJoin {
  import opened Messages
  import opened Sums

  /** One child's report: its place in the group and what its end callback was given. */
  datatype Arrival = Arrival(index: nat, end: End)

  // ---------- results ----------

  const EMPTY := WrapperMsg(RuleMsg(0, "", JSON, "", "", map[]), "", "")

  /** The results that are there, in the order of the group. */
  function NonEmpty(msgs: seq<WrapperMsg>): seq<WrapperMsg>
  {
    if msgs == [] then []
    else NonEmpty(msgs[..|msgs| - 1]) + (if msgs[|msgs| - 1].nodeId != "" then [msgs[|msgs| - 1]] else [])
  }

  method FilterEmpty(msgs: array<WrapperMsg>) returns (result: seq<WrapperMsg>)
    ensures result == NonEmpty(msgs[..])
  {
    result := [];
    for i := 0 to msgs.Length
      invariant result == NonEmpty(msgs[..i])
    {
      assert msgs[..i + 1][..i] == msgs[..i];
      if msgs[i].nodeId != "" {
        result := result + [msgs[i]];
      }
    }
    assert msgs[..msgs.Length] == msgs[..];
  }

  /** Filtering goes piece by piece, so the results that are kept stay in order. */
  lemma {:induction false} NonEmptyInOrder(a: seq<WrapperMsg>, b: seq<WrapperMsg>)
    ensures NonEmpty(a + b) == NonEmpty(a) + NonEmpty(b)
    decreases |b|
  {
    if b == [] {
      assert a + b == a;
    } else {
      var n := |b| - 1;
      NonEmptyInOrder(a, b[..n]);
      assert (a + b)[..|a + b| - 1] == a + b[..n] && (a + b)[|a + b| - 1] == b[n];
    }
  }

  /** Nothing is lost and nothing empty is kept. */
  lemma {:induction false} NonEmptyKeeps(msgs: seq<WrapperMsg>)
    ensures forall w :: w in NonEmpty(msgs) <==> w in msgs && w.nodeId != ""
  {
    if msgs == [] {
    } else {
      var n := |msgs| - 1;
      NonEmptyKeeps(msgs[..n]);
      forall w
        ensures w in msgs <==> w in msgs[..n] || w == msgs[n]
      {
        assert msgs == msgs[..n] + [msgs[n]];
      }
    }
  }

  /** A full group is kept as it is. */
  lemma {:induction false} NonEmptyFull(msgs: seq<WrapperMsg>)
    requires forall i :: 0 <= i < |msgs| ==> msgs[i].nodeId != ""
    ensures NonEmpty(msgs) == msgs
  {
    if msgs == [] {
    } else {
      var n := |msgs| - 1;
      NonEmptyFull(msgs[..n]);
      assert msgs == msgs[..n] + [msgs[n]];
    }
  }

  /** Metadata after merging every result that is there and has no error, in the order of the group. */
  function Merged(md: map<string, string>, msgs: seq<WrapperMsg>): map<string, string>
  {
    if msgs == [] then md else
      var before := Merged(md, msgs[..|msgs| - 1]);
      var w := msgs[|msgs| - 1];
      if w.nodeId != "" && w.err == "" then PutAll(before, w.msg.metadata) else before
  }

  /** Puts the entries of `extra` one by one, in whatever order the map is iterated. */
  method PutEach(md: map<string, string>, extra: map<string, string>) returns (result: map<string, string>)
    ensures result == PutAll(md, extra)
  {
    result := md;
    var left := extra.Keys;
    while left != {}
      invariant left <= extra.Keys
      invariant result == PutAll(md, extra - left)
      decreases |left|
    {
      var key :| key in left;
      if key != "" {
        result := result[key := extra[key]];
      }
      left := left - {key};
    }
    assert extra - {} == extra;
  }

  method MergeMetadata(msgs: array<WrapperMsg>, md: map<string, string>) returns (result: map<string, string>)
    ensures result == Merged(md, msgs[..])
  {
    result := md;
    for i := 0 to msgs.Length
      invariant result == Merged(md, msgs[..i])
    {
      assert msgs[..i + 1][..i] == msgs[..i];
      if msgs[i].nodeId != "" && msgs[i].err == "" {
        result := PutEach(result, msgs[i].msg.metadata);
      }
    }
    assert msgs[..msgs.Length] == msgs[..];
  }

  /** A merged key has the value of the last usable result that has the key. */
  lemma {:induction false} MergedKey(md: map<string, string>, msgs: seq<WrapperMsg>, key: string, i: nat)
    requires key != "" && i < |msgs| && msgs[i].nodeId != "" && msgs[i].err == "" && key in msgs[i].msg.metadata
    requires forall j :: i < j < |msgs| ==>
               msgs[j].nodeId == "" || msgs[j].err != "" || key !in msgs[j].msg.metadata
    ensures key in Merged(md, msgs) && Merged(md, msgs)[key] == msgs[i].msg.metadata[key]
  {
    if i == |msgs| - 1 {
    } else {
      MergedKey(md, msgs[..|msgs| - 1], key, i);
    }
  }

  /** No result that is there and has no error has the key. */
  ghost predicate NoneHas(msgs: seq<WrapperMsg>, key: string)
  {
    forall j :: 0 <= j < |msgs| ==> msgs[j].nodeId == "" || msgs[j].err != "" || key !in msgs[j].msg.metadata
  }

  /** A key that no usable result has, and the empty key, stays as it was. */
  lemma {:induction false} UnmergedKey(md: map<string, string>, msgs: seq<WrapperMsg>, key: string)
    requires key == "" || NoneHas(msgs, key)
    ensures key in Merged(md, msgs) <==> key in md
    ensures key in md ==> Merged(md, msgs)[key] == md[key]
  {
    if msgs == [] {
    } else {
      UnmergedKey(md, msgs[..|msgs| - 1], key);
    }
  }

  /** The merged metadata, key by key. */
  ghost predicate Merges(merged: map<string, string>, md: map<string, string>, msgs: seq<WrapperMsg>)
  {
    && (forall key, i: nat :: key != "" && LastHas(msgs, key, i) ==>
          key in merged && merged[key] == msgs[i].msg.metadata[key])
    && (forall key :: key == "" || NoneHas(msgs, key) ==>
          (key in merged <==> key in md) && (key in md ==> merged[key] == md[key]))
  }

  ghost predicate LastHas(msgs: seq<WrapperMsg>, key: string, i: nat)
  {
    && i < |msgs| && msgs[i].nodeId != "" && msgs[i].err == "" && key in msgs[i].msg.metadata
    && NoneHas(msgs[i + 1..], key)
  }

  lemma MergedMerges(md: map<string, string>, msgs: seq<WrapperMsg>)
    ensures Merges(Merged(md, msgs), md, msgs)
  {
    forall key, i: nat | key != "" && LastHas(msgs, key, i)
      ensures key in Merged(md, msgs) && Merged(md, msgs)[key] == msgs[i].msg.metadata[key]
    {
      assert forall j :: i < j < |msgs| ==> msgs[j] == msgs[i + 1..][j - i - 1];
      MergedKey(md, msgs, key, i);
    }
    forall key | key == "" || NoneHas(msgs, key)
      ensures key in Merged(md, msgs) <==> key in md
      ensures key in md ==> Merged(md, msgs)[key] == md[key]
    {
      UnmergedKey(md, msgs, key);
    }
  }

  // ---------- groupAction ----------

  class ActionJoin {
    const matchRelation: string
    const need: nat
    const msgs: array<WrapperMsg>
    var endCount: nat
    var matched: nat
    var completed: bool
    var channel: seq<bool>
    var wrapped: seq<WrapperMsg>
    var metadata: map<string, string>

    /** `matchNum` is normalised to 1..n: zero, negative and too large numbers mean every child. */
    constructor (matchRelation: string, matchNum: int, length: nat, md: map<string, string>)
      requires length > 0
      ensures Fresh(md) && fresh(msgs) && msgs.Length == length
      ensures 1 <= need <= length && (1 <= matchNum <= length ==> need == matchNum)
      ensures !(1 <= matchNum <= length) ==> need == length
      ensures this.matchRelation == if matchRelation == "" then SUCCESS else matchRelation
    {
      this.matchRelation := if matchRelation == "" then SUCCESS else matchRelation;
      this.need := if matchNum <= 0 || matchNum > length then length else matchNum;
      msgs := new WrapperMsg[length](i => EMPTY);
      endCount, matched, completed, channel := 0, 0, false, [];
      wrapped, metadata := [], md;
    }

    ghost predicate Fresh(md: map<string, string>)
      reads this, msgs
    {
      endCount == 0 && matched == 0 && !completed && channel == [] && metadata == md &&
      forall i :: 0 <= i < msgs.Length ==> msgs[i] == EMPTY
    }

    function Hit(a: Arrival): nat
    {
      if a.end.relation == matchRelation then 1 else 0
    }

    /** The state of the join after the arrivals `seen`. */
    ghost predicate Joined(seen: seq<Arrival>, md: map<string, string>)
      reads this, msgs
    {
      && 1 <= need <= msgs.Length
      && (!completed ==>
            && channel == [] && endCount == |seen| < msgs.Length && metadata == md
            && matched == Sum(Hit, seen) < need && SlotsHold(seen))
      && (completed ==>
            && channel == [Sum(Hit, seen) >= need]
            && wrapped == NonEmpty(msgs[..]) && metadata == Merged(md, msgs[..])
            && (exists k :: DecidedAt(seen, k)))
    }

    /** Every arrival is in its slot, and the other slots are empty. */
    ghost predicate SlotsHold(seen: seq<Arrival>)
      reads msgs
    {
      && (forall k :: 0 <= k < |seen| ==> seen[k].index < msgs.Length && msgs[seen[k].index] == WrapperOf(seen[k].end))
      && (forall i :: 0 <= i < msgs.Length && msgs[i] != EMPTY ==>
            exists k :: 0 <= k < |seen| && seen[k].index == i)
    }

    /**
    The arrival that made `k` decided the group: with it there were enough hits, or all had arrived with
    too few, and the slots hold exactly the results up to it.
    */
    ghost predicate DecidedAt(seen: seq<Arrival>, k: nat)
      reads msgs
    {
      && 1 <= k <= |seen| && SlotsHold(seen[..k])
      && Sum(Hit, seen[..k - 1]) < need
      && (Sum(Hit, seen[..k]) == need || (k == msgs.Length && Sum(Hit, seen[..k]) < need))
    }

    lemma StillDecided(seen: seq<Arrival>, a: Arrival, k: nat)
      requires DecidedAt(seen, k)
      ensures DecidedAt(seen + [a], k)
    {
      assert (seen + [a])[..k] == seen[..k] && (seen + [a])[..k - 1] == seen[..k - 1];
    }

    lemma NowDecided(seen: seq<Arrival>, a: Arrival)
      requires SlotsHold(seen + [a]) && Sum(Hit, seen) < need
      requires Sum(Hit, seen + [a]) == need || (|seen| + 1 == msgs.Length && Sum(Hit, seen + [a]) < need)
      ensures DecidedAt(seen + [a], |seen| + 1)
    {
      assert (seen + [a])[..|seen| + 1] == seen + [a] && (seen + [a])[..|seen|] == seen;
    }

    /** Puts a result into its slot. */
    method Record(a: Arrival, ghost seen: seq<Arrival>)
      requires SlotsHold(seen) && a.index < msgs.Length
      requires forall k :: 0 <= k < |seen| ==> seen[k].index != a.index
      modifies msgs
      ensures SlotsHold(seen + [a])
    {
      ghost var before := msgs[..];
      msgs[a.index] := WrapperOf(a.end);
      ghost var now := seen + [a];
      forall k | 0 <= k < |now|
        ensures now[k].index < msgs.Length && msgs[now[k].index] == WrapperOf(now[k].end)
      {
        assert k < |seen| ==> before[seen[k].index] == WrapperOf(seen[k].end);
      }
      forall i | 0 <= i < msgs.Length && msgs[i] != EMPTY
        ensures exists k :: 0 <= k < |now| && now[k].index == i
      {
        if i == a.index {
          assert now[|seen|].index == i;
        } else {
          assert before[i] != EMPTY;
          var k :| 0 <= k < |seen| && seen[k].index == i;
          assert now[k].index == i;
        }
      }
    }

    /** Gathers the results and sends the verdict. */
    method Complete(verdict: bool)
      modifies this`completed, this`wrapped, this`metadata, this`channel
      ensures completed && channel == old(channel) + [verdict]
      ensures wrapped == NonEmpty(msgs[..]) && metadata == Merged(old(metadata), msgs[..])
    {
      completed := true;
      wrapped := FilterEmpty(msgs);
      metadata := MergeMetadata(msgs, metadata);
      channel := channel + [verdict];
    }

    /** The callback of one child, run without interruption. */
    method Callback(a: Arrival, ghost seen: seq<Arrival>, ghost md: map<string, string>)
      requires Joined(seen, md) && a.index < msgs.Length && |seen| < msgs.Length
      requires forall k :: 0 <= k < |seen| ==> seen[k].index != a.index
      modifies this, msgs
      ensures Joined(seen + [a], md)
    {
      SumAppend(Hit, seen, a);
      if !completed {
        Record(a, seen);
        endCount := endCount + 1;
        if matchRelation == a.end.relation {
          matched := matched + 1;
        }
        if matched >= need {
          Complete(true);
          NowDecided(seen, a);
        } else if endCount >= msgs.Length {
          Complete(false);
          NowDecided(seen, a);
        }
      } else {
        ghost var k :| DecidedAt(seen, k);
        MoreHits(seen, k);
        StillDecided(seen, a, k);
      }
    }

    /** All children report, in the order of `arrivals`. */
    method Join(arrivals: seq<Arrival>, ghost md: map<string, string>) returns (verdict: bool)
      requires Fresh(md) && 1 <= need <= msgs.Length && |arrivals| == msgs.Length
      requires forall k :: 0 <= k < |arrivals| ==> arrivals[k].index < msgs.Length
      requires forall j, k :: 0 <= j < k < |arrivals| ==> arrivals[j].index != arrivals[k].index
      modifies this, msgs
      ensures verdict <==> |Matches(arrivals)| >= need
      ensures Merges(metadata, md, msgs[..])
      ensures channel == [verdict] && wrapped == NonEmpty(msgs[..]) && metadata == Merged(md, msgs[..])
      ensures verdict ==> exists k: nat :: DecidedAt(arrivals, k) && Sum(Hit, arrivals[..k]) == need
      ensures !verdict ==> SlotsHold(arrivals)
    {
      for k := 0 to |arrivals|
        invariant Joined(arrivals[..k], md)
      {
        assert arrivals[..k + 1] == arrivals[..k] + [arrivals[k]];
        Callback(arrivals[k], arrivals[..k], md);
      }
      assert arrivals[..|arrivals|] == arrivals;
      verdict := channel[0];
      ghost var k :| DecidedAt(arrivals, k);
      MoreHits(arrivals, k);
      HitsAreMatches(arrivals);
      MergedMerges(md, msgs[..]);
    }

    /** The arrivals with the wanted relation. */
    ghost function Matches(seen: seq<Arrival>): set<nat>
    {
      set k | 0 <= k < |seen| && seen[k].end.relation == matchRelation
    }

    lemma {:induction false} HitsAreMatches(seen: seq<Arrival>)
      ensures Sum(Hit, seen) == |Matches(seen)|
    {
      if seen == [] {
        assert Matches(seen) == {};
      } else {
        var n := |seen| - 1;
        HitsAreMatches(seen[..n]);
        SumAppend(Hit, seen[..n], seen[n]);
        assert seen == seen[..n] + [seen[n]];
        assert Matches(seen) == Matches(seen[..n]) + if seen[n].end.relation == matchRelation then {n} else {};
      }
    }

    /** More arrivals can only add hits. */
    lemma MoreHits(seen: seq<Arrival>, k: nat)
      requires k <= |seen|
      ensures Sum(Hit, seen[..k]) <= Sum(Hit, seen)
      ensures k == |seen| ==> seen[..k] == seen
    {
      SumConcat(Hit, seen[..k], seen[k..]);
      assert seen == seen[..k] + seen[k..];
    }
  }

  // ---------- groupFilter ----------

  class FilterJoin {
    const allMatches: bool
    const length: nat
    var endCount: nat
    var completed: bool
    var channel: seq<bool>

    constructor (allMatches: bool, length: nat)
      requires length > 0
      ensures this.allMatches == allMatches && this.length == length
      ensures endCount == 0 && !completed && channel == []
    {
      this.allMatches, this.length := allMatches, length;
      endCount, completed, channel := 0, false, [];
    }

    /** The conjunction or the disjunction of the reports. */
    ghost predicate Verdict(relations: seq<string>)
    {
      if allMatches then forall k :: 0 <= k < |relations| ==> relations[k] == TRUE
      else exists k :: 0 <= k < |relations| && relations[k] == TRUE
    }

    ghost predicate Joined(seen: seq<string>)
      reads this
    {
      if completed then channel == [Verdict(seen)] && (Verdict(seen) == allMatches ==> |seen| == length)
      else channel == [] && endCount == |seen| < length && Verdict(seen) == allMatches
    }

    method Callback(relation: string, ghost seen: seq<string>)
      requires Joined(seen) && |seen| < length
      modifies this
      ensures Joined(seen + [relation])
    {
      ghost var now := seen + [relation];
      assert now[|seen|] == relation && forall k :: 0 <= k < |seen| ==> now[k] == seen[k];
      if !completed {
        endCount := endCount + 1;
        if allMatches {
          if relation != TRUE {
            completed := true;
            channel := channel + [false];
          } else if endCount >= length {
            completed := true;
            channel := channel + [true];
          }
        } else {
          if relation == TRUE {
            completed := true;
            channel := channel + [true];
          } else if endCount >= length {
            completed := true;
            channel := channel + [false];
          }
        }
      }
    }

    method Join(relations: seq<string>) returns (verdict: bool)
      requires endCount == 0 && !completed && channel == [] && |relations| == length > 0
      modifies this
      ensures verdict == Verdict(relations) && channel == [verdict]
      ensures allMatches ==> (verdict <==> forall k :: 0 <= k < |relations| ==> relations[k] == "True")
      ensures !allMatches ==> (verdict <==> exists k :: 0 <= k < |relations| && relations[k] == "True")
    {
      for k := 0 to |relations|
        invariant Joined(relations[..k])
      {
        assert relations[..k + 1] == relations[..k] + [relations[k]];
        Callback(relations[k], relations[..k]);
      }
      assert relations[..|relations|] == relations;
      verdict := channel[0];
    }
  }

  // ---------- arrival order does not matter ----------

  /** Two orders of the same reports have the same number of hits, so the same groupAction verdict. */
  lemma ActionOrder(join: ActionJoin, a: seq<Arrival>, b: seq<Arrival>)
    requires multiset(a) == multiset(b)
    ensures Sum(join.Hit, a) >= join.need <==> Sum(join.Hit, b) >= join.need
  {
    SumPermutation(join.Hit, a, b);
  }

  lemma FilterOrder(join: FilterJoin, a: seq<string>, b: seq<string>)
    requires multiset(a) == multiset(b)
    ensures join.Verdict(a) == join.Verdict(b)
  {
    assert forall r :: r in a <==> r in multiset(a);
    assert forall r :: r in b <==> r in multiset(b);
    assert forall k :: 0 <= k < |a| ==> a[k] in b;
    assert forall k :: 0 <= k < |b| ==> b[k] in a;
    assert (exists k :: 0 <= k < |a| && a[k] == TRUE) <==> TRUE in a;
    assert (exists k :: 0 <= k < |b| && b[k] == TRUE) <==> TRUE in b;
  }
}
