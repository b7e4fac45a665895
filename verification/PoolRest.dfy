/** Left to itself the worker pool comes to rest, with everything run, and after a stop with every worker gone. */
module PoolRest {
  import opened Sums
  import opened PoolProtocol

  function ItemWork(item: Item): nat { if item.Work? then 5 else 3 }

  function WorkerWork(w: Worker): nat
  {
    match w
    case Running(_) => 4
    case Releasing => 3
    case Leaving => 2
    case Returning => 1
    case _ => 0
  }

  /** A bound on the moves that a channel and its worker can still make on their own. */
  function ChanWork(c: Chan): nat
  {
    (if c.buffer == [] then 0 else ItemWork(c.buffer[0])) + WorkerWork(c.worker)
  }

  /** The same for the whole pool, with the items that are still to be sent. */
  function Left(s: State): nat
  {
    6 * |s.heldCh| + 4 * |s.scratch| + Sum(ChanWork, s.chans)
  }

  /** Only channel `ch` changes. */
  lemma LeftAt(s: State, s': State, ch: nat, c: Chan)
    requires ch < |s.chans| && s'.chans == s.chans[ch := c]
    ensures Left(s') == Left(s) + 6 * (|s'.heldCh| - |s.heldCh|) + 4 * (|s'.scratch| - |s.scratch|) +
                        ChanWork(c) - ChanWork(s.chans[ch])
  {
    SumUpdate(ChanWork, s.chans, ch, c);
  }

  lemma SendLighter(s: State, k: nat)
    requires Enabled(s, Send(k))
    ensures Left(DoSend(s, k)) < Left(s)
  {
    var ch := s.heldCh[k];
    LeftAt(s, DoSend(s, k), ch, DoSend(s, k).chans[ch]);
  }

  lemma NotifyLighter(s: State)
    requires Enabled(s, Notify)
    ensures Left(DoNotify(s)) < Left(s)
  {
    var ch := s.scratch[0];
    LeftAt(s, DoNotify(s), ch, DoNotify(s).chans[ch]);
  }

  lemma ReceiveLighter(s: State, ch: nat)
    requires Owned(s) && Enabled(s, Receive(ch))
    ensures Left(DoReceive(s, ch)) < Left(s)
  {
    assert Tokens(s, ch) == Live(s.chans[ch]);
    assert s.chans[ch].buffer[1..] == [];
    LeftAt(s, DoReceive(s, ch), ch, DoReceive(s, ch).chans[ch]);
  }

  lemma WorkerLighter(s: State, m: Move)
    requires (m.Finish? || m.Release? || m.Leave? || m.Return?) && Enabled(s, m)
    ensures Left(Do(s, m)) < Left(s)
  {
    LeftAt(s, Do(s, m), m.ch, Do(s, m).chans[m.ch]);
  }

  /** Every move that the pool makes on its own leaves it with less to do. */
  lemma InternalLighter(s: State, m: Move)
    requires Owned(s) && Internal(m) && Enabled(s, m)
    ensures Left(Do(s, m)) < Left(s)
  {
    match m
    case Send(k) => SendLighter(s, k);
    case Notify => NotifyLighter(s);
    case Receive(ch) => ReceiveLighter(s, ch);
    case _ => WorkerLighter(s, m);
  }

  ghost predicate AllInternal(moves: seq<Move>)
  {
    forall i :: 0 <= i < |moves| ==> Internal(moves[i])
  }

  /** Left to itself, the pool makes no more moves than that bound. */
  lemma {:induction false} InternalRunsEnd(s: State, moves: seq<Move>)
    requires Inv(s) && AllInternal(moves) && Possible(s, moves)
    ensures |moves| <= Left(s)
    decreases |moves|
  {
    if moves == [] {
    } else {
      InternalLighter(s, moves[0]);
      StepInv(s, moves[0]);
      InternalRunsEnd(Do(s, moves[0]), moves[1..]);
    }
  }

  ghost predicate AtRest(s: State)
  {
    forall m :: Internal(m) ==> !Enabled(s, m)
  }

  lemma MoveThen(s: State, m: Move, later: seq<Move>)
    requires Enabled(s, m) && Internal(m) && Possible(Do(s, m), later) && AllInternal(later)
    ensures AllInternal([m] + later) && Possible(s, [m] + later)
    ensures DoAll(s, [m] + later) == DoAll(Do(s, m), later)
  {
    assert ([m] + later)[1..] == later;
  }

  lemma {:induction false} ReachesRest(s: State) returns (moves: seq<Move>)
    requires Inv(s)
    ensures AllInternal(moves) && Possible(s, moves) && AtRest(DoAll(s, moves))
    decreases Left(s)
  {
    if AtRest(s) {
      moves := [];
    } else {
      var m :| Internal(m) && Enabled(s, m);
      InternalLighter(s, m);
      StepInv(s, m);
      var later := ReachesRest(Do(s, m));
      MoveThen(s, m, later);
      moves := [m] + later;
    }
  }

  /**
  From every reachable state the pool's own moves come to an end, however they are chosen, and where they
  end everything accepted has been run once; if the pool was stopped, every worker has exited.
  */
  lemma ComesToRest(s: State, moves: seq<Move>)
    requires Inv(s) && AllInternal(moves) && Possible(s, moves)
    ensures |moves| <= Left(s)
    ensures var s' := DoAll(s, moves);
            if AtRest(s')
            then s'.ran == s'.accepted && (s.mustStop ==> s'.count == 0)
            else exists m :: Internal(m) && Enabled(s', m)
  {
    InternalRunsEnd(s, moves);
    RunInv(s, moves);
    if AtRest(DoAll(s, moves)) {
      Quiescence(DoAll(s, moves));
    }
  }
}
