/**
The delay node: messages wait in a map until a timer hands them back. The class keeps the map; its
ghost history lists the calls of `OnMsg` with what each of them did, and whole histories are shown
to lose nothing, deliver nothing twice and stay within the limit.
*/
module DelayNodes {
  import opened Messages

  const DELAY_NODE_MSG_TYPE := "DELAY_NODE_MSG_TYPE"
  const NOT_FOUND := "msg not found"
  const FULL := "max limit of pending messages"
  const BAD_PERIOD := "period is not a number"

  /** What one call does with the context; `Nothing` leaves the message without an answer. */
  datatype Action =
    | Success(msg: RuleMsg)
    | Failure(msg: RuleMsg, err: string)
    | Timer(ack: RuleMsg, ms: int)
    | Nothing

  /** One call of `OnMsg`: the message, the period read off it if any, and what was done. */
  datatype Call = Call(msg: RuleMsg, period: Option<int>, action: Action)

  datatype Config = Config(periodInSeconds: int, maxPendingMsgs: int, hasPattern: bool, overwrite: bool)

  predicate IsAck(c: Call)
  {
    c.msg.kind == DELAY_NODE_MSG_TYPE
  }

  // ---------- what a history says ----------

  /** The ids whose timers have been started and have not fired. */
  function Armed(h: seq<Call>): set<string>
  {
    if h == [] then {} else
    var c := h[|h| - 1];
    var before := Armed(h[..|h| - 1]);
    if IsAck(c) then before - {c.msg.id} else if c.action.Timer? then before + {c.msg.id} else before
  }

  /** Arrivals carry distinct non-empty ids; acknowledgements may come from anywhere, at any time. */
  ghost predicate Tidy(h: seq<Call>)
  {
    && (forall k :: 0 <= k < |h| && !IsAck(h[k]) ==> h[k].msg.id != "")
    && (forall j, k :: 0 <= j < k < |h| && !IsAck(h[j]) && !IsAck(h[k]) ==> h[j].msg.id != h[k].msg.id)
  }

  predicate Accepted(c: Call)
  {
    !IsAck(c) && c.action.Timer?
  }

  /** The latest arrival that was accepted, or that replaced one that had been. */
  function Latest(h: seq<Call>): Option<RuleMsg>
  {
    if h == [] then None else
    var c := h[|h| - 1];
    if !IsAck(c) && (c.action.Timer? || c.action.Nothing?) then Some(c.msg) else Latest(h[..|h| - 1])
  }

  /** The accepted arrival with an id. */
  function AcceptedWith(h: seq<Call>, id: string): Option<RuleMsg>
  {
    if h == [] then None else
    var c := h[|h| - 1];
    if Accepted(c) && c.msg.id == id then Some(c.msg) else AcceptedWith(h[..|h| - 1], id)
  }

  /** The message that waits under an id. */
  function Waiting(cfg: Config, h: seq<Call>, id: string): Option<RuleMsg>
  {
    if cfg.overwrite then Latest(h) else AcceptedWith(h, id)
  }

  /** What a call should do after a tidy history. */
  function Expected(cfg: Config, h: seq<Call>, msg: RuleMsg, period: Option<int>): Action
  {
    if msg.kind == DELAY_NODE_MSG_TYPE then
      var waiting := Waiting(cfg, h, msg.id);
      if msg.id in Armed(h) && waiting.Some? then Success(waiting.value) else Failure(msg, NOT_FOUND)
    else if cfg.overwrite && Armed(h) != {} then Nothing
    else if |Armed(h)| >= cfg.maxPendingMsgs then Failure(msg, FULL)
    else if cfg.hasPattern && period == None then Failure(msg, BAD_PERIOD)
    else Timer(msg.(kind := DELAY_NODE_MSG_TYPE), (if cfg.hasPattern then period.value else cfg.periodInSeconds) * 1000)
  }

  /** Every call did what it should. */
  ghost predicate Right(cfg: Config, h: seq<Call>)
  {
    forall k :: 0 <= k < |h| ==> h[k].action == Expected(cfg, h[..k], h[k].msg, h[k].period)
  }

  lemma HistoryNext(cfg: Config, h: seq<Call>, c: Call)
    ensures Tidy(h + [c]) ==> Tidy(h)
    ensures Right(cfg, h + [c]) <==> Right(cfg, h) && c.action == Expected(cfg, h, c.msg, c.period)
    ensures Armed(h + [c]) == if IsAck(c) then Armed(h) - {c.msg.id} else
                              if c.action.Timer? then Armed(h) + {c.msg.id} else Armed(h)
    ensures Latest(h + [c]) == if !IsAck(c) && (c.action.Timer? || c.action.Nothing?) then Some(c.msg) else Latest(h)
    ensures forall id :: AcceptedWith(h + [c], id) ==
                         if Accepted(c) && c.msg.id == id then Some(c.msg) else AcceptedWith(h, id)
  {
    var h' := h + [c];
    assert h'[..|h|] == h && h'[|h|] == c;
    assert forall k :: 0 <= k < |h| ==> h'[k] == h[k] && h'[..k] == h[..k];
  }

  // ---------- whole histories ----------

  lemma TidyPrefix(cfg: Config, h: seq<Call>, k: nat)
    requires k <= |h|
    ensures Tidy(h) ==> Tidy(h[..k])
    ensures Right(cfg, h) ==> Right(cfg, h[..k])
  {
    assert forall j :: 0 <= j < k ==> h[..k][..j] == h[..j];
  }

  lemma ArmedStep(h: seq<Call>, k: nat)
    requires k < |h|
    ensures Armed(h[..k + 1]) == if IsAck(h[k]) then Armed(h[..k]) - {h[k].msg.id} else
                                 if h[k].action.Timer? then Armed(h[..k]) + {h[k].msg.id} else Armed(h[..k])
  {
    assert h[..k + 1][..k] == h[..k];
  }

  /** A timer that has not been started is not running. */
  lemma {:induction false} Unstarted(h: seq<Call>, i: nat, k: nat, id: string)
    requires i <= k <= |h| && id !in Armed(h[..i])
    requires forall j :: i <= j < k && Accepted(h[j]) ==> h[j].msg.id != id
    ensures id !in Armed(h[..k])
    decreases k - i
  {
    if i == k {
    } else {
      Unstarted(h, i, k - 1, id);
      ArmedStep(h, k - 1);
    }
  }

  /** Behind a running timer there is an accepted arrival with its id, and a message waits. */
  lemma {:induction false} Started(cfg: Config, h: seq<Call>, id: string) returns (j: nat)
    requires id in Armed(h)
    ensures j < |h| && Accepted(h[j]) && h[j].msg.id == id && AcceptedWith(h, id) == Some(h[j].msg)
    ensures Waiting(cfg, h, id).Some?
  {
    var n := |h| - 1;
    if Accepted(h[n]) && h[n].msg.id == id {
      j := n;
    } else {
      j := Started(cfg, h[..n], id);
    }
  }

  function Count(h: seq<Call>, p: Call -> bool): nat
  {
    if h == [] then 0 else Count(h[..|h| - 1], p) + if p(h[|h| - 1]) then 1 else 0
  }

  predicate Delivers(c: Call)
  {
    IsAck(c) && c.action.Success?
  }

  /** Nothing is lost and nothing is made up: accepted messages have been delivered or are still waiting. */
  lemma {:induction false} Conserved(cfg: Config, h: seq<Call>)
    requires Tidy(h) && Right(cfg, h)
    ensures Count(h, Accepted) == Count(h, Delivers) + |Armed(h)|
  {
    if h == [] {
    } else {
      var n := |h| - 1;
      TidyPrefix(cfg, h, n);
      Conserved(cfg, h[..n]);
      var id := h[n].msg.id;
      if id in Armed(h[..n]) {
        var j := Started(cfg, h[..n], id);
        assert !IsAck(h[j]) && h[j].msg.id == id;
      }
    }
  }

  /**
  Normal mode: what a timer delivers is the accepted arrival with its id, unchanged, and no other
  acknowledgement delivers it again.
  */
  lemma {:induction false} DeliveredOnce(cfg: Config, h: seq<Call>, k: nat) returns (j: nat)
    requires !cfg.overwrite && Tidy(h) && Right(cfg, h) && k < |h| && Delivers(h[k])
    ensures j < k && Accepted(h[j]) && h[j].msg.id == h[k].msg.id && h[k].action == Success(h[j].msg)
    ensures forall other :: 0 <= other < |h| && other != k && Delivers(h[other]) ==> h[other].msg.id != h[k].msg.id
  {
    var id := h[k].msg.id;
    assert id in Armed(h[..k]);
    j := Started(cfg, h[..k], id);
    forall other | 0 <= other < |h| && other != k && Delivers(h[other])
      ensures h[other].msg.id != id
    {
      if h[other].msg.id == id {
        if other < k {
          NotTwice(cfg, h, other, k);
        } else {
          NotTwice(cfg, h, k, other);
        }
      }
    }
  }

  lemma {:induction false} NotTwice(cfg: Config, h: seq<Call>, a: nat, b: nat)
    requires Tidy(h) && Right(cfg, h) && a < b < |h| && Delivers(h[a]) && Delivers(h[b])
    ensures h[a].msg.id != h[b].msg.id
  {
    if h[a].msg.id == h[b].msg.id {
      var id := h[a].msg.id;
      var j := Started(cfg, h[..a], id);
      ArmedStep(h, a);
      Unstarted(h, a + 1, b, id);
    }
  }

  /** A timer stops running when its acknowledgement delivers. */
  lemma {:induction false} StopsByDelivery(cfg: Config, h: seq<Call>, k: nat, id: string)
    requires Right(cfg, h) && k < |h| && id in Armed(h[..k]) && id !in Armed(h[..k + 1])
    ensures Delivers(h[k]) && h[k].msg.id == id && Waiting(cfg, h[..k], id) == Some(h[k].action.msg)
  {
    ArmedStep(h, k);
    var j := Started(cfg, h[..k], id);
  }

  lemma {:induction false} OnlyOneWith(h: seq<Call>, k: nat, j: nat)
    requires Tidy(h) && j < k <= |h| && Accepted(h[j])
    ensures AcceptedWith(h[..k], h[j].msg.id) == Some(h[j].msg)
    decreases k
  {
    assert h[..k][..k - 1] == h[..k - 1];
    if j == k - 1 {
    } else {
      OnlyOneWith(h, k - 1, j);
    }
  }

  /** A timer that was started and is no longer running stopped at some call in between. */
  lemma {:induction false} Stopped(h: seq<Call>, j: nat, n: nat) returns (k: nat)
    requires j < n <= |h| && Accepted(h[j]) && h[j].msg.id !in Armed(h[..n])
    ensures j < k < n && h[j].msg.id in Armed(h[..k]) && h[j].msg.id !in Armed(h[..k + 1])
    decreases n
  {
    k := n - 1;
    ArmedStep(h, k);
    if h[j].msg.id in Armed(h[..k]) {
    } else {
      k := Stopped(h, j, k);
    }
  }

  /** An accepted message whose timer is no longer running after `n` calls has been delivered. */
  lemma {:induction false} EventuallyDelivered(cfg: Config, h: seq<Call>, j: nat, n: nat) returns (k: nat)
    requires Tidy(h) && Right(cfg, h) && j < n <= |h| && Accepted(h[j]) && h[j].msg.id !in Armed(h[..n])
    ensures j < k < n && Delivers(h[k]) && h[k].msg.id == h[j].msg.id
    ensures !cfg.overwrite ==> h[k].action == Success(h[j].msg)
  {
    k := Stopped(h, j, n);
    StopsByDelivery(cfg, h, k, h[j].msg.id);
    OnlyOneWith(h, k, j);
  }

  /** Overwrite mode: what a timer delivers is the latest arrival of all. */
  lemma {:induction false} DeliversLatest(cfg: Config, h: seq<Call>, k: nat) returns (j: nat)
    requires cfg.overwrite && cfg.maxPendingMsgs > 0 && Right(cfg, h) && k < |h| && Delivers(h[k])
    ensures j < k && !IsAck(h[j]) && h[k].action == Success(h[j].msg)
    ensures forall later :: j < later < k ==> IsAck(h[later])
  {
    var id := h[k].msg.id;
    var start := Started(cfg, h[..k], id);
    j := LatestAt(h[..k]);
    assert forall m :: j < m < k ==> h[..k][m] == h[m];
    forall later | j < later < k
      ensures IsAck(h[later])
    {
      if !IsAck(h[later]) {
        OnlyWhenIdle(cfg, h, later);
        Unstarted(h, later, k, id);
      }
    }
  }

  /** In overwrite mode an arrival is only turned away when nothing waits. */
  lemma {:induction false} OnlyWhenIdle(cfg: Config, h: seq<Call>, k: nat)
    requires cfg.overwrite && Right(cfg, h) && k < |h| && !IsAck(h[k]) && !h[k].action.Nothing?
    ensures Armed(h[..k]) == {}
  {
    assert h[k].action == Expected(cfg, h[..k], h[k].msg, h[k].period);
  }

  lemma {:induction false} LatestAt(h: seq<Call>) returns (j: nat)
    requires Latest(h).Some?
    ensures j < |h| && !IsAck(h[j]) && Latest(h) == Some(h[j].msg)
    ensures forall later :: j < later < |h| && !IsAck(h[later]) ==> h[later].action.Success? || h[later].action.Failure?
  {
    var n := |h| - 1;
    if !IsAck(h[n]) && (h[n].action.Timer? || h[n].action.Nothing?) {
      j := n;
    } else {
      j := LatestAt(h[..n]);
      assert forall later :: j < later < n ==> h[..n][later] == h[later];
    }
  }

  // ---------- what every call is answered ----------

  /** How many accepted messages had not been delivered before call `k`. */
  function Undelivered(h: seq<Call>, k: nat): int
    requires k <= |h|
  {
    Count(h[..k], Accepted) - Count(h[..k], Delivers)
  }

  /** The timer of an accepted message brings the message back, retyped, after its own or the set period. */
  ghost predicate StartsTimer(cfg: Config, c: Call)
  {
    && c.action.Timer? && c.action.ack == c.msg.(kind := "DELAY_NODE_MSG_TYPE")
    && (cfg.hasPattern ==> c.period.Some? && c.action.ms == 1000 * c.period.value)
    && (!cfg.hasPattern ==> c.action.ms == 1000 * cfg.periodInSeconds)
  }

  lemma NothingWaits(cfg: Config, h: seq<Call>, k: nat)
    requires Tidy(h) && Right(cfg, h) && k <= |h|
    ensures Undelivered(h, k) == |Armed(h[..k])|
  {
    TidyPrefix(cfg, h, k);
    Conserved(cfg, h[..k]);
  }

  /**
  Normal mode: an arrival is refused as over the limit if and only if that many accepted messages are
  undelivered; otherwise it fails on an unreadable period, or starts its timer. It is never told Success.
  */
  lemma ArrivalAnswered(cfg: Config, h: seq<Call>, k: nat)
    requires !cfg.overwrite && Tidy(h) && Right(cfg, h) && k < |h| && !IsAck(h[k])
    ensures h[k].action == Failure(h[k].msg, "max limit of pending messages") <==>
            Undelivered(h, k) >= cfg.maxPendingMsgs
    ensures Undelivered(h, k) < cfg.maxPendingMsgs ==>
              if cfg.hasPattern && h[k].period == None then h[k].action == Failure(h[k].msg, BAD_PERIOD)
              else StartsTimer(cfg, h[k])
  {
    NothingWaits(cfg, h, k);
    assert h[k].action == Expected(cfg, h[..k], h[k].msg, h[k].period);
  }

  /**
  Overwrite mode: an arrival goes unanswered, and replaces what waits, if and only if a message is
  undelivered; otherwise it fails on an unreadable period, or starts its timer.
  */
  lemma OverwriteAnswered(cfg: Config, h: seq<Call>, k: nat)
    requires cfg.overwrite && cfg.maxPendingMsgs > 0 && Tidy(h) && Right(cfg, h) && k < |h| && !IsAck(h[k])
    ensures h[k].action == Nothing <==> Undelivered(h, k) > 0
    ensures Undelivered(h, k) <= 0 ==>
              if cfg.hasPattern && h[k].period == None then h[k].action == Failure(h[k].msg, BAD_PERIOD)
              else StartsTimer(cfg, h[k])
  {
    NothingWaits(cfg, h, k);
    assert h[k].action == Expected(cfg, h[..k], h[k].msg, h[k].period);
  }

  /** Arrival `j` was accepted before call `k` and nothing with its id has been acknowledged in between. */
  ghost predicate Awaits(h: seq<Call>, j: nat, k: nat, id: string)
  {
    j < k <= |h| && Accepted(h[j]) && h[j].msg.id == id && forall m :: j < m < k && IsAck(h[m]) ==> h[m].msg.id != id
  }

  lemma {:induction false} ArmedIsAwaited(h: seq<Call>, k: nat, id: string) returns (j: nat)
    requires k <= |h|
    ensures id in Armed(h[..k]) ==> Awaits(h, j, k, id)
    decreases k
  {
    if k == 0 {
      j := 0;
    } else {
      ArmedStep(h, k - 1);
      j := ArmedIsAwaited(h, k - 1, id);
      if Accepted(h[k - 1]) && h[k - 1].msg.id == id {
        j := k - 1;
      }
    }
  }

  lemma {:induction false} AwaitedIsArmed(h: seq<Call>, j: nat, k: nat, id: string)
    requires Awaits(h, j, k, id)
    ensures id in Armed(h[..k])
    decreases k
  {
    ArmedStep(h, k - 1);
    if j == k - 1 {
    } else {
      AwaitedIsArmed(h, j, k - 1, id);
    }
  }

  /** An acknowledgement delivers if and only if its timer is awaited; otherwise it is told that there is no message. */
  lemma AckAnswered(cfg: Config, h: seq<Call>, k: nat)
    requires Right(cfg, h) && k < |h| && IsAck(h[k])
    ensures h[k].action.Success? <==> exists j: nat :: Awaits(h, j, k, h[k].msg.id)
    ensures !h[k].action.Success? ==> h[k].action == Failure(h[k].msg, "msg not found")
  {
    var id := h[k].msg.id;
    assert h[k].action == Expected(cfg, h[..k], h[k].msg, h[k].period);
    var j := ArmedIsAwaited(h, k, id);
    if id in Armed(h[..k]) {
      var first := Started(cfg, h[..k], id);
    }
    if j :| Awaits(h, j, k, id) {
      AwaitedIsArmed(h, j, k, id);
    }
  }

  /** The map holds exactly the messages that wait, each under the id its timer will bring back. */
  ghost predicate Exact(cfg: Config, h: seq<Call>, pending: map<string, RuleMsg>, last: string)
  {
    && pending.Keys == Armed(h)
    && (forall id :: id in pending ==> Waiting(cfg, h, id) == Some(pending[id]))
    && (if cfg.overwrite then last != "" <==> pending != map[] else last == "")
    && (last != "" ==> pending.Keys == {last})
    && |pending| <= if cfg.overwrite then 1 else cfg.maxPendingMsgs
  }

  lemma AcceptExact(cfg: Config, h: seq<Call>, pending: map<string, RuleMsg>, c: Call)
    requires Exact(cfg, h, pending, "") && |pending| < cfg.maxPendingMsgs
    requires Accepted(c) && c.msg.id != ""
    ensures Exact(cfg, h + [c], pending[c.msg.id := c.msg], if cfg.overwrite then c.msg.id else "")
  {
    HistoryNext(cfg, h, c);
    var pending' := pending[c.msg.id := c.msg];
    assert pending'.Keys == Armed(h + [c]);
    assert |pending'| <= |pending| + 1;
    assert cfg.overwrite ==> pending == map[];
  }

  /** After a tidy history everything was done right and the map is exact. */
  ghost predicate Consistent(cfg: Config, h: seq<Call>, pending: map<string, RuleMsg>, last: string)
  {
    cfg.maxPendingMsgs > 0 && (Tidy(h) ==> Right(cfg, h) && Exact(cfg, h, pending, last))
  }

  lemma AcceptKeeps(cfg: Config, h: seq<Call>, pending: map<string, RuleMsg>, c: Call)
    requires Consistent(cfg, h, pending, "") && |pending| < cfg.maxPendingMsgs
    requires !IsAck(c) && (cfg.hasPattern ==> c.period.Some?)
    requires c.action == Timer(c.msg.(kind := DELAY_NODE_MSG_TYPE),
                               (if cfg.hasPattern then c.period.value else cfg.periodInSeconds) * 1000)
    ensures Consistent(cfg, h + [c], pending[c.msg.id := c.msg], if cfg.overwrite then c.msg.id else "")
  {
    if Tidy(h + [c]) {
      HistoryNext(cfg, h, c);
      assert (h + [c])[|h|] == c;
      assert |pending| == |pending.Keys|;
      assert cfg.overwrite ==> pending == map[];
      AcceptExact(cfg, h, pending, c);
    }
  }

  lemma AckExact(cfg: Config, h: seq<Call>, pending: map<string, RuleMsg>, last: string, c: Call)
    requires Exact(cfg, h, pending, last) && IsAck(c)
    ensures Exact(cfg, h + [c], pending - {c.msg.id}, if c.msg.id in pending && cfg.overwrite then "" else last)
  {
    HistoryNext(cfg, h, c);
    var pending' := pending - {c.msg.id};
    if c.msg.id in pending {
      assert |pending'.Keys| == |pending.Keys - {c.msg.id}| == |pending.Keys| - 1;
    } else {
      assert pending' == pending;
    }
  }

  lemma AckKeeps(cfg: Config, h: seq<Call>, pending: map<string, RuleMsg>, last: string, c: Call)
    requires Consistent(cfg, h, pending, last) && IsAck(c)
    requires c.action == if c.msg.id in pending then Success(pending[c.msg.id]) else Failure(c.msg, NOT_FOUND)
    ensures Consistent(cfg, h + [c], pending - {c.msg.id}, if c.msg.id in pending && cfg.overwrite then "" else last)
  {
    if Tidy(h + [c]) {
      HistoryNext(cfg, h, c);
      AckExact(cfg, h, pending, last, c);
    }
  }

  // ---------- the node ----------

  class DelayNode {
    const cfg: Config
    var pendingMsgs: map<string, RuleMsg>
    var lastPendingMsgId: string
    ghost var history: seq<Call>

    constructor (config: Config)
      ensures Valid() && history == []
      ensures cfg == config.(maxPendingMsgs := if config.maxPendingMsgs <= 0 then 1000 else config.maxPendingMsgs)
    {
      cfg := if config.maxPendingMsgs <= 0 then config.(maxPendingMsgs := 1000) else config;
      pendingMsgs, lastPendingMsgId, history := map[], "", [];
    }

    ghost predicate Valid()
      reads this
    {
      Consistent(cfg, history, pendingMsgs, lastPendingMsgId)
    }

    method OnMsg(msg: RuleMsg, period: Option<int>) returns (action: Action)
      requires Valid()
      modifies this`pendingMsgs, this`lastPendingMsgId, this`history
      ensures Valid() && history == old(history) + [Call(msg, period, action)]
    {
      if msg.kind == DELAY_NODE_MSG_TYPE {
        action := OnAck(msg, period);
      } else if lastPendingMsgId != "" {
        action := OnOverwrite(msg, period);
      } else {
        action := OnArrival(msg, period);
      }
    }

    method OnAck(msg: RuleMsg, period: Option<int>) returns (action: Action)
      requires Valid() && msg.kind == DELAY_NODE_MSG_TYPE
      modifies this`pendingMsgs, this`lastPendingMsgId, this`history
      ensures Valid() && history == old(history) + [Call(msg, period, action)]
    {
      if msg.id in pendingMsgs {
        action := Success(pendingMsgs[msg.id]);
        if cfg.overwrite {
          lastPendingMsgId := "";
        }
        pendingMsgs := pendingMsgs - {msg.id};
      } else {
        action := Failure(msg, NOT_FOUND);
        assert pendingMsgs - {msg.id} == pendingMsgs;
      }
      history := history + [Call(msg, period, action)];
      AckKeeps(cfg, old(history), old(pendingMsgs), old(lastPendingMsgId), Call(msg, period, action));
    }

    method OnOverwrite(msg: RuleMsg, period: Option<int>) returns (action: Action)
      requires Valid() && msg.kind != DELAY_NODE_MSG_TYPE && lastPendingMsgId != ""
      modifies this`pendingMsgs, this`history
      ensures Valid() && history == old(history) + [Call(msg, period, action)]
    {
      pendingMsgs := pendingMsgs[lastPendingMsgId := msg];
      action := Nothing;
      history := history + [Call(msg, period, action)];
      HistoryNext(cfg, old(history), Call(msg, period, action));
    }

    method OnArrival(msg: RuleMsg, period: Option<int>) returns (action: Action)
      requires Valid() && msg.kind != DELAY_NODE_MSG_TYPE && lastPendingMsgId == ""
      modifies this`pendingMsgs, this`lastPendingMsgId, this`history
      ensures Valid() && history == old(history) + [Call(msg, period, action)]
    {
      if |pendingMsgs| >= cfg.maxPendingMsgs {
        action := Failure(msg, FULL);
      } else if cfg.hasPattern && period == None {
        action := Failure(msg, BAD_PERIOD);
      } else {
        action := Accept(msg, period);
        return;
      }
      history := history + [Call(msg, period, action)];
      HistoryNext(cfg, old(history), Call(msg, period, action));
    }

    /** Puts the message in the map and starts its timer. */
    method Accept(msg: RuleMsg, period: Option<int>) returns (action: Action)
      requires Valid() && msg.kind != DELAY_NODE_MSG_TYPE && lastPendingMsgId == ""
      requires |pendingMsgs| < cfg.maxPendingMsgs && (cfg.hasPattern ==> period.Some?)
      modifies this`pendingMsgs, this`lastPendingMsgId, this`history
      ensures Valid() && history == old(history) + [Call(msg, period, action)]
    {
      var seconds := if cfg.hasPattern then period.value else cfg.periodInSeconds;
      if cfg.overwrite {
        lastPendingMsgId := msg.id;
      }
      pendingMsgs := pendingMsgs[msg.id := msg];
      action := Timer(msg.(kind := DELAY_NODE_MSG_TYPE), seconds * 1000);
      history := history + [Call(msg, period, action)];
      AcceptKeeps(cfg, old(history), old(pendingMsgs), Call(msg, period, action));
    }
  }
}
