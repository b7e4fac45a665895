/**
The worker pool as a protocol between submitters, workers, the cleaner and a stopper. Each
move is one critical section, one channel operation or one call of a submitted function.
*/
module PoolProtocol {
  import opened Sums

  type Fn = nat

  datatype Item = Work(fn: Fn) | Quit

  /** Where the goroutine of a channel is; `Absent` when the channel is unused or in the recycling pool. */
  datatype Worker = Absent | Idle | Running(fn: Fn) | Releasing | Leaving | Returning

  /** A worker channel of capacity one. */
  datatype Chan = Chan(worker: Worker, buffer: seq<Item>, lastUse: int)

  /**
  `heldCh[k]` has been handed to a submitter who will send `heldFn[k]`; `scratch` has been taken out
  by the cleaner, who will send Quit. `accepted` and `ran` are the histories of functions.
  */
  datatype State = State(
    max: nat, now: int, chans: seq<Chan>, ready: seq<nat>, scratch: seq<nat>,
    heldCh: seq<nat>, heldFn: seq<Fn>, count: int, mustStop: bool,
    accepted: multiset<Fn>, ran: multiset<Fn>)

  datatype Move =
    | Take(fn: Fn)
    | Create(fn: Fn, ch: nat)
    | Send(k: nat)
    | Receive(ch: nat)
    | Finish(ch: nat)
    | Release(ch: nat, time: int)
    | Leave(ch: nat)
    | Return(ch: nat)
    | Clean(critical: int)
    | Notify
    | Stop

  function Init(max: nat): State
  {
    State(max, 0, [], [], [], [], [], 0, false, multiset{}, multiset{})
  }

  predicate Room(s: State, ch: nat)
  {
    ch < |s.chans| && s.chans[ch].buffer == []
  }

  predicate Enabled(s: State, m: Move)
  {
    match m
    case Take(_) => s.ready != []
    case Create(_, ch) =>
      s.ready == [] && s.count < s.max &&
      (ch == |s.chans| || (ch < |s.chans| && s.chans[ch].worker == Absent))
    case Send(k) => k < |s.heldCh| && k < |s.heldFn| && Room(s, s.heldCh[k])
    case Receive(ch) => ch < |s.chans| && s.chans[ch].worker == Idle && s.chans[ch].buffer != []
    case Finish(ch) => ch < |s.chans| && s.chans[ch].worker.Running?
    case Release(ch, time) => ch < |s.chans| && s.chans[ch].worker == Releasing && s.now <= time
    case Leave(ch) => ch < |s.chans| && s.chans[ch].worker == Leaving
    case Return(ch) => ch < |s.chans| && s.chans[ch].worker == Returning
    case Clean(_) => s.scratch == [] && forall i :: 0 <= i < |s.ready| ==> s.ready[i] < |s.chans|
    case Notify => s.scratch != [] && Room(s, s.scratch[0])
    case Stop => !s.mustStop && forall i :: 0 <= i < |s.ready| ==> Room(s, s.ready[i])
  }

  function SetWorker(s: State, ch: nat, w: Worker): State
    requires ch < |s.chans|
  {
    s.(chans := s.chans[ch := s.chans[ch].(worker := w)])
  }

  function Put(chans: seq<Chan>, ch: nat, item: Item): seq<Chan>
    requires ch < |chans|
  {
    chans[ch := chans[ch].(buffer := chans[ch].buffer + [item])]
  }

  function PutAll(chans: seq<Chan>, targets: seq<nat>): (r: seq<Chan>)
    requires forall i :: 0 <= i < |targets| ==> targets[i] < |chans|
    ensures |r| == |chans|
    decreases |targets|
  {
    if targets == [] then chans else PutAll(Put(chans, targets[0], Quit), targets[1..])
  }

  function Drop<T>(xs: seq<T>, k: nat): seq<T>
    requires k < |xs|
  {
    xs[..k] + xs[k + 1..]
  }

  /** The length of the longest prefix of `ready` that was last used before `critical`. */
  function IdlePrefix(chans: seq<Chan>, ready: seq<nat>, critical: int): (cut: nat)
    requires forall i :: 0 <= i < |ready| ==> ready[i] < |chans|
    ensures cut <= |ready|
  {
    if ready == [] || chans[ready[0]].lastUse >= critical then 0
    else 1 + IdlePrefix(chans, ready[1..], critical)
  }

  /** `getCh` with a ready worker: the one that was used last. */
  function DoTake(s: State, fn: Fn): State
    requires s.ready != []
  {
    var n := |s.ready| - 1;
    s.(ready := s.ready[..n], heldCh := s.heldCh + [s.ready[n]], heldFn := s.heldFn + [fn],
       accepted := s.accepted + multiset{fn})
  }

  /** `getCh` without a ready worker: a new goroutine on a new or recycled channel. */
  function DoCreate(s: State, fn: Fn, ch: nat): State
    requires ch <= |s.chans|
  {
    var chans := if ch == |s.chans| then s.chans + [Chan(Idle, [], 0)]
                 else s.chans[ch := s.chans[ch].(worker := Idle)];
    s.(chans := chans, count := s.count + 1, heldCh := s.heldCh + [ch], heldFn := s.heldFn + [fn],
       accepted := s.accepted + multiset{fn})
  }

  function DoSend(s: State, k: nat): State
    requires k < |s.heldCh| && k < |s.heldFn| && s.heldCh[k] < |s.chans|
  {
    s.(chans := Put(s.chans, s.heldCh[k], Work(s.heldFn[k])),
       heldCh := Drop(s.heldCh, k), heldFn := Drop(s.heldFn, k))
  }

  function DoReceive(s: State, ch: nat): State
    requires ch < |s.chans| && s.chans[ch].buffer != []
  {
    var c := s.chans[ch];
    var w := match c.buffer[0] case Work(fn) => Running(fn) case Quit => Leaving;
    s.(chans := s.chans[ch := c.(worker := w, buffer := c.buffer[1..])])
  }

  function DoFinish(s: State, ch: nat): State
    requires ch < |s.chans| && s.chans[ch].worker.Running?
  {
    SetWorker(s, ch, Releasing).(ran := s.ran + multiset{s.chans[ch].worker.fn})
  }

  function DoRelease(s: State, ch: nat, time: int): State
    requires ch < |s.chans|
  {
    var c := s.chans[ch].(lastUse := time);
    if s.mustStop then s.(now := time, chans := s.chans[ch := c.(worker := Leaving)])
    else s.(now := time, chans := s.chans[ch := c.(worker := Idle)], ready := s.ready + [ch])
  }

  function DoLeave(s: State, ch: nat): State
    requires ch < |s.chans|
  {
    SetWorker(s, ch, Returning).(count := s.count - 1)
  }

  function DoClean(s: State, critical: int): State
    requires forall i :: 0 <= i < |s.ready| ==> s.ready[i] < |s.chans|
  {
    var cut := IdlePrefix(s.chans, s.ready, critical);
    s.(scratch := s.ready[..cut], ready := s.ready[cut..])
  }

  function DoNotify(s: State): State
    requires s.scratch != [] && s.scratch[0] < |s.chans|
  {
    s.(chans := Put(s.chans, s.scratch[0], Quit), scratch := s.scratch[1..])
  }

  function DoStop(s: State): State
    requires forall i :: 0 <= i < |s.ready| ==> s.ready[i] < |s.chans|
  {
    s.(chans := PutAll(s.chans, s.ready), ready := [], mustStop := true)
  }

  function Do(s: State, m: Move): State
    requires Enabled(s, m)
  {
    match m
    case Take(fn) => DoTake(s, fn)
    case Create(fn, ch) => DoCreate(s, fn, ch)
    case Send(k) => DoSend(s, k)
    case Receive(ch) => DoReceive(s, ch)
    case Finish(ch) => DoFinish(s, ch)
    case Release(ch, time) => DoRelease(s, ch, time)
    case Leave(ch) => DoLeave(s, ch)
    case Return(ch) => SetWorker(s, ch, Absent)
    case Clean(critical) => DoClean(s, critical)
    case Notify => DoNotify(s)
    case Stop => DoStop(s)
  }

  /** Every move of the run is possible where it is made. */
  predicate Possible(s: State, moves: seq<Move>)
    decreases |moves|
  {
    moves == [] || (Enabled(s, moves[0]) && Possible(Do(s, moves[0]), moves[1..]))
  }

  function DoAll(s: State, moves: seq<Move>): State
    requires Possible(s, moves)
    decreases |moves|
  {
    if moves == [] then s else DoAll(Do(s, moves[0]), moves[1..])
  }

  // ---------- ownership ----------

  function Busy(w: Worker): nat
  {
    if w.Running? || w == Releasing || w == Leaving then 1 else 0
  }

  function Live(c: Chan): nat
  {
    if c.worker == Absent || c.worker == Returning then 0 else 1
  }

  /** How often a channel is in the ready list, with the cleaner, or with a submitter. */
  function Listed(s: State, ch: nat): nat
  {
    multiset(s.ready)[ch] + multiset(s.scratch)[ch] + multiset(s.heldCh)[ch]
  }

  /** What the channel itself holds: an item, or a worker in the middle of something. */
  function Loaded(c: Chan): nat
  {
    |c.buffer| + Busy(c.worker)
  }

  /** The number of parties that hold channel `ch`. */
  function Tokens(s: State, ch: nat): nat
    requires ch < |s.chans|
  {
    Listed(s, ch) + Loaded(s.chans[ch])
  }

  predicate InRange(s: State)
  {
    && (forall i :: 0 <= i < |s.ready| ==> s.ready[i] < |s.chans|)
    && (forall i :: 0 <= i < |s.scratch| ==> s.scratch[i] < |s.chans|)
    && (forall i :: 0 <= i < |s.heldCh| ==> s.heldCh[i] < |s.chans|)
    && |s.heldCh| == |s.heldFn|
  }

  /** Each live channel is in exactly one hand, every other channel in none. */
  ghost predicate Owned(s: State)
  {
    InRange(s) && forall ch :: 0 <= ch < |s.chans| ==> Tokens(s, ch) == Live(s.chans[ch])
  }

  /** Functions inside channels and workers. */
  function Inside(c: Chan): multiset<Fn>
  {
    (if c.buffer != [] && c.buffer[0].Work? then multiset{c.buffer[0].fn} else multiset{}) +
    (if c.worker.Running? then multiset{c.worker.fn} else multiset{})
  }

  ghost predicate Conserved(s: State)
  {
    s.accepted == s.ran + multiset(s.heldFn) + UnionOf(Inside, s.chans)
  }

  /** Ready workers are in the order of their last use, none in the future. */
  ghost predicate Sorted(s: State)
  {
    && InRange(s)
    && (forall i, j :: 0 <= i < j < |s.ready| ==> s.chans[s.ready[i]].lastUse <= s.chans[s.ready[j]].lastUse)
    && (forall i :: 0 <= i < |s.ready| ==> s.chans[s.ready[i]].lastUse <= s.now)
  }

  ghost predicate Inv(s: State)
  {
    && Owned(s)
    && Conserved(s)
    && Sorted(s)
    && CountExact(s)
    && (s.mustStop ==> s.ready == [])
  }

  lemma DropMultiset<T>(xs: seq<T>, k: nat)
    requires k < |xs|
    ensures multiset(Drop(xs, k)) == multiset(xs) - multiset{xs[k]}
    ensures forall i :: 0 <= i < |xs| - 1 ==> Drop(xs, k)[i] == xs[if i < k then i else i + 1]
  {
    assert xs == xs[..k] + [xs[k]] + xs[k + 1..];
  }

  lemma SplitMultiset<T>(xs: seq<T>, k: nat)
    requires k <= |xs|
    ensures multiset(xs) == multiset(xs[..k]) + multiset(xs[k..])
  {
    assert xs == xs[..k] + xs[k..];
  }

  lemma NotHeld(xs: seq<nat>, bound: nat)
    requires forall i :: 0 <= i < |xs| ==> xs[i] < bound
    ensures multiset(xs)[bound] == 0
  {
    assert bound !in xs;
  }

  /** Sending Quit to a list of channels adds to each buffer as often as the channel is listed. */
  lemma {:induction false} PutAllEffect(chans: seq<Chan>, targets: seq<nat>)
    requires forall i :: 0 <= i < |targets| ==> targets[i] < |chans|
    ensures forall ch :: 0 <= ch < |chans| ==>
              var c, r := chans[ch], PutAll(chans, targets)[ch];
              r.worker == c.worker && r.lastUse == c.lastUse &&
              |r.buffer| == |c.buffer| + multiset(targets)[ch] &&
              c.buffer <= r.buffer &&
              (c.buffer == [] && r.buffer != [] ==> r.buffer[0] == Quit)
    decreases |targets|
  {
    if targets == [] {
    } else {
      var next := Put(chans, targets[0], Quit);
      PutAllEffect(next, targets[1..]);
      assert targets == [targets[0]] + targets[1..];
      assert multiset(targets) == multiset{targets[0]} + multiset(targets[1..]);
    }
  }

  // ---------- ownership is kept ----------

  /** Only channel `ch` changes hands or state. */
  lemma OwnedAt(s: State, s': State, ch: nat)
    requires Owned(s) && InRange(s') && ch < |s'.chans| == |s.chans|
    requires forall d :: 0 <= d < |s.chans| && d != ch ==>
               Listed(s', d) == Listed(s, d) && s'.chans[d] == s.chans[d]
    requires Tokens(s', ch) == Live(s'.chans[ch])
    ensures Owned(s')
  {
    forall d | 0 <= d < |s'.chans|
      ensures Tokens(s', d) == Live(s'.chans[d])
    {
      if d != ch {
        assert Tokens(s, d) == Live(s.chans[d]);
      }
    }
  }

  lemma OwnedTake(s: State, fn: Fn)
    requires Owned(s) && s.ready != []
    ensures Owned(DoTake(s, fn))
  {
    var s' := DoTake(s, fn);
    var n := |s.ready| - 1;
    assert s.ready == s.ready[..n] + [s.ready[n]];
    assert Tokens(s, s.ready[n]) == Live(s.chans[s.ready[n]]);
    OwnedAt(s, s', s.ready[n]);
  }

  lemma OwnedCreate(s: State, fn: Fn, ch: nat)
    requires Owned(s) && ch <= |s.chans| && (ch < |s.chans| ==> s.chans[ch].worker == Absent)
    ensures Owned(DoCreate(s, fn, ch))
  {
    var s' := DoCreate(s, fn, ch);
    if ch < |s.chans| {
      assert Tokens(s, ch) == 0;
      OwnedAt(s, s', ch);
    } else {
      NotHeld(s.ready, ch);
      NotHeld(s.scratch, ch);
      NotHeld(s.heldCh, ch);
      forall d | 0 <= d < |s'.chans|
        ensures Tokens(s', d) == Live(s'.chans[d])
      {
        if d != ch {
          assert Tokens(s, d) == Live(s.chans[d]);
        }
      }
    }
  }

  lemma OwnedSend(s: State, k: nat)
    requires Owned(s) && k < |s.heldCh|
    ensures Owned(DoSend(s, k))
  {
    var s' := DoSend(s, k);
    var ch := s.heldCh[k];
    DropMultiset(s.heldCh, k);
    assert ch in multiset(s.heldCh);
    assert Tokens(s, ch) == Live(s.chans[ch]);
    OwnedAt(s, s', ch);
  }

  lemma OwnedNotify(s: State)
    requires Owned(s) && s.scratch != []
    ensures Owned(DoNotify(s))
  {
    var ch := s.scratch[0];
    assert s.scratch == [ch] + s.scratch[1..];
    assert multiset(s.scratch) == multiset{ch} + multiset(s.scratch[1..]);
    assert Tokens(s, ch) == Live(s.chans[ch]);
    OwnedAt(s, DoNotify(s), ch);
  }

  lemma OwnedClean(s: State, critical: int)
    requires Owned(s) && s.scratch == []
    ensures Owned(DoClean(s, critical))
  {
    var s' := DoClean(s, critical);
    SplitMultiset(s.ready, IdlePrefix(s.chans, s.ready, critical));
    forall d | 0 <= d < |s'.chans|
      ensures Tokens(s', d) == Live(s'.chans[d])
    {
      assert Tokens(s, d) == Live(s.chans[d]);
    }
  }

  lemma OwnedStop(s: State)
    requires Owned(s)
    ensures Owned(DoStop(s))
  {
    var s' := DoStop(s);
    PutAllEffect(s.chans, s.ready);
    forall d | 0 <= d < |s'.chans|
      ensures Tokens(s', d) == Live(s'.chans[d])
    {
      assert Tokens(s, d) == Live(s.chans[d]);
    }
  }

  /** A worker moves on without touching any list. */
  lemma OwnedWorker(s: State, s': State, ch: nat, c: Chan)
    requires Owned(s) && ch < |s.chans| && s'.chans == s.chans[ch := c]
    requires s'.ready == s.ready && s'.scratch == s.scratch && s'.heldCh == s.heldCh && s'.heldFn == s.heldFn
    requires Loaded(c) - Live(c) == Loaded(s.chans[ch]) - Live(s.chans[ch])
    ensures Owned(s')
  {
    assert Tokens(s, ch) == Live(s.chans[ch]);
    OwnedAt(s, s', ch);
  }

  lemma OwnedRelease(s: State, ch: nat, time: int)
    requires Owned(s) && ch < |s.chans| && s.chans[ch].worker == Releasing
    ensures Owned(DoRelease(s, ch, time))
  {
    var s' := DoRelease(s, ch, time);
    assert Tokens(s, ch) == 1;
    OwnedAt(s, s', ch);
  }

  lemma OwnedReceive(s: State, ch: nat)
    requires Owned(s) && ch < |s.chans| && s.chans[ch].worker == Idle && s.chans[ch].buffer != []
    ensures Owned(DoReceive(s, ch))
  {
    OwnedWorker(s, DoReceive(s, ch), ch, DoReceive(s, ch).chans[ch]);
  }

  lemma StepOwned(s: State, m: Move)
    requires Owned(s) && Enabled(s, m)
    ensures Owned(Do(s, m))
  {
    match m
    case Take(fn) => OwnedTake(s, fn);
    case Create(fn, ch) => OwnedCreate(s, fn, ch);
    case Send(k) => OwnedSend(s, k);
    case Notify => OwnedNotify(s);
    case Clean(critical) => OwnedClean(s, critical);
    case Stop => OwnedStop(s);
    case Release(ch, time) => OwnedRelease(s, ch, time);
    case Receive(ch) => OwnedReceive(s, ch);
    case Finish(ch) => OwnedWorker(s, DoFinish(s, ch), ch, DoFinish(s, ch).chans[ch]);
    case Leave(ch) => OwnedWorker(s, DoLeave(s, ch), ch, DoLeave(s, ch).chans[ch]);
    case Return(ch) => OwnedWorker(s, SetWorker(s, ch, Absent), ch, SetWorker(s, ch, Absent).chans[ch]);
  }

  // ---------- functions are conserved ----------

  /** The channel that a move changes, as it was and as it becomes. */
  lemma OneChan(s: State, ch: nat, c: Chan)
    requires ch < |s.chans|
    ensures UnionOf(Inside, s.chans[ch := c]) + Inside(s.chans[ch]) == UnionOf(Inside, s.chans) + Inside(c)
  {
    UnionOfUpdate(Inside, s.chans, ch, c);
  }

  lemma {:induction false} SameInside(a: seq<Chan>, b: seq<Chan>)
    requires |a| == |b| && forall i :: 0 <= i < |a| ==> Inside(a[i]) == Inside(b[i])
    ensures UnionOf(Inside, a) == UnionOf(Inside, b)
  {
    if a == [] {
    } else {
      SameInside(a[1..], b[1..]);
    }
  }

  lemma AddBoth(all: multiset<Fn>, a: multiset<Fn>, b: multiset<Fn>, c: multiset<Fn>, fn: Fn)
    requires all == a + b + c
    ensures all + multiset{fn} == a + (b + multiset{fn}) + c
  {
  }

  lemma ConservedCreate(s: State, fn: Fn, ch: nat)
    requires Owned(s) && Conserved(s) && ch <= |s.chans| && (ch < |s.chans| ==> s.chans[ch].worker == Absent)
    ensures Conserved(DoCreate(s, fn, ch))
  {
    assert multiset(s.heldFn + [fn]) == multiset(s.heldFn) + multiset{fn};
    if ch == |s.chans| {
      UnionOfAppend(Inside, s.chans, Chan(Idle, [], 0));
      assert Inside(Chan(Idle, [], 0)) == multiset{};
    } else {
      SameInside(s.chans, DoCreate(s, fn, ch).chans);
    }
    AddBoth(s.accepted, s.ran, multiset(s.heldFn), UnionOf(Inside, s.chans), fn);
  }

  lemma ConservedSend(s: State, k: nat)
    requires Owned(s) && Conserved(s) && k < |s.heldCh|
    ensures Conserved(DoSend(s, k))
  {
    var s' := DoSend(s, k);
    var ch, fn := s.heldCh[k], s.heldFn[k];
    var before, after := s.chans[ch], s'.chans[ch];
    assert ch in multiset(s.heldCh) && fn in multiset(s.heldFn);
    assert Tokens(s, ch) == 1 && before.buffer == [];
    OneChan(s, ch, after);
    assert Inside(after) == multiset{fn} + Inside(before);
    Cancel(UnionOf(Inside, s'.chans), UnionOf(Inside, s.chans) + multiset{fn}, Inside(before));
    DropMultiset(s.heldFn, k);
    assert multiset(s.heldFn) == multiset(s'.heldFn) + multiset{fn};
  }

  /** A channel changes without a change in the functions inside it. */
  lemma ConservedAt(s: State, s': State, ch: nat, c: Chan)
    requires Conserved(s) && ch < |s.chans| && s'.chans == s.chans[ch := c] && Inside(c) == Inside(s.chans[ch])
    requires s'.accepted == s.accepted && s'.ran == s.ran && s'.heldFn == s.heldFn
    ensures Conserved(s')
  {
    SameInside(s.chans, s'.chans);
  }

  lemma ConservedFinish(s: State, ch: nat)
    requires Conserved(s) && ch < |s.chans| && s.chans[ch].worker.Running?
    ensures Conserved(DoFinish(s, ch))
  {
    var s' := DoFinish(s, ch);
    var fn, after := s.chans[ch].worker.fn, s'.chans[ch];
    OneChan(s, ch, after);
    assert Inside(s.chans[ch]) == Inside(after) + multiset{fn};
    Cancel(UnionOf(Inside, s'.chans) + multiset{fn}, UnionOf(Inside, s.chans), Inside(after));
  }

  lemma ConservedReceive(s: State, ch: nat)
    requires Owned(s) && Conserved(s)
    requires ch < |s.chans| && s.chans[ch].worker == Idle && s.chans[ch].buffer != []
    ensures Conserved(DoReceive(s, ch))
  {
    var c := s.chans[ch];
    assert Tokens(s, ch) == 1;
    assert c.buffer == [c.buffer[0]] && c.buffer[1..] == [];
    ConservedAt(s, DoReceive(s, ch), ch, DoReceive(s, ch).chans[ch]);
  }

  lemma StopInside(s: State, ch: nat)
    requires ch < |s.chans| && InRange(s) && forall i :: 0 <= i < |s.ready| ==> Room(s, s.ready[i])
    ensures Inside(DoStop(s).chans[ch]) == Inside(s.chans[ch])
  {
    PutAllEffect(s.chans, s.ready);
    if ch in s.ready {
      var k :| 0 <= k < |s.ready| && s.ready[k] == ch;
      assert Room(s, s.ready[k]);
    } else {
      assert ch !in multiset(s.ready);
      assert DoStop(s).chans[ch].buffer == s.chans[ch].buffer;
    }
  }

  lemma ConservedStop(s: State)
    requires Conserved(s) && InRange(s) && forall i :: 0 <= i < |s.ready| ==> Room(s, s.ready[i])
    ensures Conserved(DoStop(s))
  {
    forall i | 0 <= i < |s.chans|
      ensures Inside(DoStop(s).chans[i]) == Inside(s.chans[i])
    {
      StopInside(s, i);
    }
    SameInside(s.chans, DoStop(s).chans);
  }

  lemma ConservedNotify(s: State)
    requires Conserved(s) && s.scratch != [] && Room(s, s.scratch[0])
    ensures Conserved(DoNotify(s))
  {
    ConservedAt(s, DoNotify(s), s.scratch[0], DoNotify(s).chans[s.scratch[0]]);
  }

  lemma ConservedRelease(s: State, ch: nat, time: int)
    requires Conserved(s) && ch < |s.chans| && s.chans[ch].worker == Releasing
    ensures Conserved(DoRelease(s, ch, time))
  {
    ConservedAt(s, DoRelease(s, ch, time), ch, DoRelease(s, ch, time).chans[ch]);
  }

  lemma ConservedExit(s: State, ch: nat)
    requires Conserved(s) && ch < |s.chans| && !s.chans[ch].worker.Running?
    ensures Conserved(DoLeave(s, ch)) && Conserved(SetWorker(s, ch, Absent))
  {
    ConservedAt(s, DoLeave(s, ch), ch, DoLeave(s, ch).chans[ch]);
    ConservedAt(s, SetWorker(s, ch, Absent), ch, SetWorker(s, ch, Absent).chans[ch]);
  }

  lemma ConservedTake(s: State, fn: Fn)
    requires Conserved(s) && s.ready != []
    ensures Conserved(DoTake(s, fn))
  {
    assert multiset(s.heldFn + [fn]) == multiset(s.heldFn) + multiset{fn};
  }

  lemma StepConserved(s: State, m: Move)
    requires Owned(s) && Conserved(s) && Enabled(s, m)
    ensures Conserved(Do(s, m))
  {
    match m
    case Take(fn) => ConservedTake(s, fn);
    case Create(fn, ch) => ConservedCreate(s, fn, ch);
    case Send(k) => ConservedSend(s, k);
    case Finish(ch) => ConservedFinish(s, ch);
    case Clean(critical) => ConservedClean(s, critical);
    case Stop => ConservedStop(s);
    case Receive(ch) => ConservedReceive(s, ch);
    case Notify => ConservedNotify(s);
    case Release(ch, time) => ConservedRelease(s, ch, time);
    case Leave(ch) => ConservedExit(s, ch);
    case Return(ch) => ConservedExit(s, ch);
  }

  lemma ConservedClean(s: State, critical: int)
    requires Conserved(s) && forall i :: 0 <= i < |s.ready| ==> s.ready[i] < |s.chans|
    ensures Conserved(DoClean(s, critical))
  {
  }

  // ---------- order of last use ----------

  /** On a sorted list the idle prefix is exactly the set of workers last used before the cutoff. */
  lemma {:induction false} PrefixExact(chans: seq<Chan>, ready: seq<nat>, critical: int)
    requires forall i :: 0 <= i < |ready| ==> ready[i] < |chans|
    requires forall i, j :: 0 <= i < j < |ready| ==> chans[ready[i]].lastUse <= chans[ready[j]].lastUse
    ensures var cut := IdlePrefix(chans, ready, critical);
            forall i :: 0 <= i < |ready| ==> (chans[ready[i]].lastUse < critical <==> i < cut)
  {
    if ready == [] || chans[ready[0]].lastUse >= critical {
    } else {
      PrefixExact(chans, ready[1..], critical);
      var cut := IdlePrefix(chans, ready[1..], critical);
      forall i | 0 <= i < |ready|
        ensures chans[ready[i]].lastUse < critical <==> i < 1 + cut
      {
        if i > 0 {
          assert ready[i] == ready[1..][i - 1];
        }
      }
    }
  }

  /** At most the last ready channel goes, and no time stamp changes. */
  lemma SortedSame(s: State, s': State)
    requires Sorted(s) && InRange(s') && s'.ready <= s.ready && s'.now == s.now
    requires |s.chans| <= |s'.chans| && forall i :: 0 <= i < |s.chans| ==> s'.chans[i].lastUse == s.chans[i].lastUse
    ensures Sorted(s')
  {
    assert forall i :: 0 <= i < |s'.ready| ==> s'.ready[i] == s.ready[i];
  }

  lemma SortedRelease(s: State, ch: nat, time: int)
    requires Owned(s) && Sorted(s) && ch < |s.chans| && s.chans[ch].worker == Releasing && s.now <= time
    ensures Sorted(DoRelease(s, ch, time))
  {
    var s' := DoRelease(s, ch, time);
    assert ch !in s.ready by {
      assert Tokens(s, ch) == 1;
      assert ch !in multiset(s.ready);
    }
    forall i | 0 <= i < |s.ready|
      ensures s'.chans[s'.ready[i]] == s.chans[s.ready[i]]
    {
      assert s.ready[i] in s.ready;
    }
  }

  lemma SortedClean(s: State, critical: int)
    requires Sorted(s)
    ensures Sorted(DoClean(s, critical))
  {
    var s' := DoClean(s, critical);
    var cut := IdlePrefix(s.chans, s.ready, critical);
    assert forall i :: 0 <= i < |s'.ready| ==> s'.ready[i] == s.ready[cut + i];
  }

  lemma SortedChannel(s: State, m: Move)
    requires Sorted(s) && Enabled(s, m) && InRange(Do(s, m))
    requires m.Send? || m.Receive? || m.Finish? || m.Leave? || m.Return? || m.Notify?
    ensures Sorted(Do(s, m))
  {
    var s' := Do(s, m);
    assert s'.ready == s.ready && s'.now == s.now;
    SortedSame(s, s');
  }

  lemma StepSorted(s: State, m: Move)
    requires Owned(s) && Sorted(s) && Enabled(s, m) && InRange(Do(s, m))
    ensures Sorted(Do(s, m))
  {
    match m
    case Release(ch, time) => SortedRelease(s, ch, time);
    case Clean(critical) => SortedClean(s, critical);
    case Stop =>
    case Take(fn) => SortedSame(s, DoTake(s, fn));
    case Create(fn, ch) => SortedSame(s, DoCreate(s, fn, ch));
    case _ => SortedChannel(s, m);
  }

  // ---------- the number of workers ----------

  ghost predicate CountExact(s: State)
  {
    s.count == Sum(Live, s.chans) && 0 <= s.count <= s.max
  }

  lemma {:induction false} SameLive(a: seq<Chan>, b: seq<Chan>)
    requires |a| == |b| && forall i :: 0 <= i < |a| ==> Live(a[i]) == Live(b[i])
    ensures Sum(Live, a) == Sum(Live, b)
  {
    if a == [] {
    } else {
      SameLive(a[1..], b[1..]);
    }
  }

  lemma CountCreate(s: State, fn: Fn, ch: nat)
    requires CountExact(s) && s.count < s.max && ch <= |s.chans|
    requires ch < |s.chans| ==> s.chans[ch].worker == Absent
    ensures CountExact(DoCreate(s, fn, ch))
  {
    if ch == |s.chans| {
      SumAppend(Live, s.chans, Chan(Idle, [], 0));
    } else {
      SumUpdate(Live, s.chans, ch, s.chans[ch].(worker := Idle));
    }
  }

  lemma CountLeave(s: State, ch: nat)
    requires CountExact(s) && ch < |s.chans| && s.chans[ch].worker == Leaving
    ensures CountExact(DoLeave(s, ch))
  {
    SumUpdate(Live, s.chans, ch, s.chans[ch].(worker := Returning));
    SumAtLeast(Live, s.chans, ch);
  }

  lemma CountStop(s: State)
    requires CountExact(s) && InRange(s)
    ensures CountExact(DoStop(s))
  {
    PutAllEffect(s.chans, s.ready);
    SameLive(s.chans, DoStop(s).chans);
  }

  lemma CountSame(s: State, m: Move)
    requires CountExact(s) && Enabled(s, m) && !m.Create? && !m.Leave? && !m.Stop?
    ensures CountExact(Do(s, m))
  {
    SameLive(s.chans, Do(s, m).chans);
  }

  lemma StepCount(s: State, m: Move)
    requires InRange(s) && Enabled(s, m) && CountExact(s)
    ensures CountExact(Do(s, m))
  {
    match m
    case Create(fn, ch) => CountCreate(s, fn, ch);
    case Leave(ch) => CountLeave(s, ch);
    case Stop => CountStop(s);
    case _ => CountSame(s, m);
  }

  // ---------- whole runs ----------

  lemma StepStopped(s: State, m: Move)
    requires Enabled(s, m) && (s.mustStop ==> s.ready == [])
    ensures Do(s, m).mustStop ==> Do(s, m).ready == []
    ensures s.mustStop ==> Do(s, m).mustStop
  {
    assert m.Clean? && s.ready == [] ==> s.ready[IdlePrefix(s.chans, s.ready, m.critical)..] == [];
  }

  lemma StepInv(s: State, m: Move)
    requires Inv(s) && Enabled(s, m)
    ensures Inv(Do(s, m))
  {
    StepOwned(s, m);
    StepConserved(s, m);
    StepSorted(s, m);
    StepCount(s, m);
    StepStopped(s, m);
  }

  lemma {:induction false} RunInv(s: State, moves: seq<Move>)
    requires Inv(s) && Possible(s, moves)
    ensures Inv(DoAll(s, moves)) && (s.mustStop ==> DoAll(s, moves).mustStop)
    decreases |moves|
  {
    if moves == [] {
    } else {
      StepInv(s, moves[0]);
      StepStopped(s, moves[0]);
      RunInv(Do(s, moves[0]), moves[1..]);
    }
  }

  /** Every reachable state of a pool has the invariant. */
  lemma Reachable(max: nat, moves: seq<Move>)
    requires Possible(Init(max), moves)
    ensures Inv(DoAll(Init(max), moves))
  {
    RunInv(Init(max), moves);
  }

  /** No channel operation of the pool ever has to wait for room, in particular none under the lock. */
  lemma SendsNeverBlock(s: State)
    requires Inv(s)
    ensures forall k :: 0 <= k < |s.heldCh| ==> Enabled(s, Send(k))
    ensures s.scratch != [] ==> Enabled(s, Notify)
    ensures !s.mustStop ==> Enabled(s, Stop)
  {
    forall ch | 0 <= ch < |s.chans| && (ch in s.heldCh || ch in s.scratch || ch in s.ready)
      ensures Room(s, ch)
    {
      assert Tokens(s, ch) == Live(s.chans[ch]);
      assert ch in multiset(s.heldCh) || ch in multiset(s.scratch) || ch in multiset(s.ready);
    }
    forall k | 0 <= k < |s.heldCh|
      ensures Enabled(s, Send(k))
    {
      assert s.heldCh[k] in s.heldCh;
    }
    assert s.scratch != [] ==> s.scratch[0] in s.scratch;
    assert forall i :: 0 <= i < |s.ready| ==> s.ready[i] in s.ready;
  }

  /** Moves that the pool makes on its own, without a new submission, cleaning or stopping. */
  predicate Internal(m: Move)
  {
    m.Send? || m.Receive? || m.Finish? || m.Release? || m.Leave? || m.Return? || m.Notify?
  }

  /** A channel at rest: nothing in its buffer, its worker waiting or gone. */
  lemma ChannelAtRest(s: State, ch: nat)
    requires Inv(s) && ch < |s.chans| && forall m :: Internal(m) ==> !Enabled(s, m)
    ensures s.chans[ch].buffer == [] && (s.chans[ch].worker == Idle || s.chans[ch].worker == Absent)
  {
    assert !Enabled(s, Receive(ch)) && !Enabled(s, Finish(ch)) && !Enabled(s, Release(ch, s.now));
    assert !Enabled(s, Leave(ch)) && !Enabled(s, Return(ch));
    assert Tokens(s, ch) == Live(s.chans[ch]);
  }

  /**
  When nothing is left to do, every accepted function has been run exactly once; and if the pool has been
  stopped, every worker has exited.
  */
  lemma Quiescence(s: State)
    requires Inv(s) && forall m :: Internal(m) ==> !Enabled(s, m)
    ensures s.ran == s.accepted
    ensures s.mustStop ==> s.count == 0 && forall ch :: 0 <= ch < |s.chans| ==> s.chans[ch].worker == Absent
  {
    SendsNeverBlock(s);
    assert s.heldCh == [] by {
      assert !Enabled(s, Send(0));
    }
    assert s.scratch == [] by {
      assert !Enabled(s, Notify);
    }
    forall ch | 0 <= ch < |s.chans|
      ensures Inside(s.chans[ch]) == multiset{}
      ensures s.mustStop ==> s.chans[ch].worker == Absent
    {
      ChannelAtRest(s, ch);
      assert Tokens(s, ch) == Live(s.chans[ch]);
    }
    UnionOfEmpty(Inside, s.chans);
    if s.mustStop {
      SumZero(Live, s.chans);
    }
  }

  /** The cleaner takes exactly the ready workers last used before the cutoff, and keeps the rest in order. */
  lemma CleanExact(s: State, critical: int)
    requires Sorted(s)
    ensures var s' := DoClean(s, critical);
            var cut := |s'.scratch|;
            && cut <= |s.ready| && s'.scratch == s.ready[..cut] && s'.ready == s.ready[cut..]
            && forall i :: 0 <= i < |s.ready| ==> (s.chans[s.ready[i]].lastUse < critical <==> i < cut)
  {
    PrefixExact(s.chans, s.ready, critical);
  }

  /** A submission with a ready worker goes to the one used last, and takes no other off the list. */
  lemma TakesLatest(s: State, fn: Fn)
    requires Inv(s) && Enabled(s, Take(fn))
    ensures var s', n := Do(s, Take(fn)), |s.ready| - 1;
            && s'.heldCh == s.heldCh + [s.ready[n]] && s'.heldFn == s.heldFn + [fn]
            && s'.ready + [s.ready[n]] == s.ready
            && s'.chans == s.chans && s'.count == s.count
            && forall i :: 0 <= i < |s.ready| ==> s.chans[s.ready[i]].lastUse <= s.chans[s.ready[n]].lastUse
  {
  }

  /**
  A submission is refused if and only if no worker is ready and the maximum of them is live; a new worker is
  made only when none is ready.
  */
  lemma RefusedIff(s: State, fn: Fn)
    requires Inv(s)
    ensures Enabled(s, Take(fn)) ==> forall ch :: !Enabled(s, Create(fn, ch))
    ensures (!Enabled(s, Take(fn)) && forall ch :: !Enabled(s, Create(fn, ch))) <==>
            s.ready == [] && Sum(Live, s.chans) == s.max
  {
    if s.ready == [] && s.count < s.max {
      assert Enabled(s, Create(fn, |s.chans|));
    }
  }

  /** A released worker is last in the list, stamped with the time of its release, unless the pool was stopped. */
  lemma ReleaseStamps(s: State, ch: nat, time: int)
    requires Inv(s) && Enabled(s, Release(ch, time))
    ensures var s' := Do(s, Release(ch, time));
            && s'.chans[ch].lastUse == time == s'.now
            && (if s.mustStop then s'.ready == s.ready && s'.chans[ch].worker == Leaving
                else s'.ready == s.ready + [ch] && s'.chans[ch].worker == Idle)
  {
  }

  /** No worker is ever in the ready list twice. */
  lemma ReadyDistinct(s: State)
    requires Inv(s)
    ensures forall i, j :: 0 <= i < j < |s.ready| ==> s.ready[i] != s.ready[j]
  {
    forall i, j | 0 <= i < j < |s.ready|
      ensures s.ready[i] != s.ready[j]
    {
      var ch := s.ready[i];
      assert Tokens(s, ch) == Live(s.chans[ch]);
      assert s.ready == s.ready[..j] + [s.ready[j]] + s.ready[j + 1..];
      assert s.ready[..j][i] == ch;
      assert ch in s.ready[..j];
      assert multiset(s.ready)[ch] >= multiset(s.ready[..j])[ch] + multiset{s.ready[j]}[ch];
    }
  }
}
