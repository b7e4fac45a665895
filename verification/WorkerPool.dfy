/** The worker pool's own data: the ready list in its backing array, searched and compacted in place. */
module WorkerPools {

  class WorkerChan {
    var lastUseTime: int

    constructor (time: int)
      ensures lastUseTime == time
    {
      lastUseTime := time;
    }
  }

  /** No worker twice, and later places were used later. */
  ghost predicate InOrder(ws: seq<WorkerChan>)
    reads set w | w in ws
  {
    forall i, j :: 0 <= i < j < |ws| ==> ws[i] != ws[j] && ws[i].lastUseTime <= ws[j].lastUseTime
  }

  lemma SuffixInOrder(ws: seq<WorkerChan>, k: nat)
    requires k <= |ws| && InOrder(ws)
    ensures InOrder(ws[k..])
  {
    forall i, j | 0 <= i < j < |ws[k..]|
      ensures ws[k..][i] != ws[k..][j] && ws[k..][i].lastUseTime <= ws[k..][j].lastUseTime
    {
      assert ws[k..][i] == ws[k + i] && ws[k..][j] == ws[k + j];
    }
  }

  class WorkerPool {
    const maxWorkersCount: nat
    var workersCount: int
    var mustStop: bool
    var ready: array<WorkerChan?>
    var len: nat

    constructor (max: nat)
      ensures Valid() && Ready() == [] && workersCount == 0 && !mustStop && maxWorkersCount == max
      ensures fresh(ready)
    {
      maxWorkersCount := max;
      workersCount, mustStop, len := 0, false, 0;
      ready := new WorkerChan?[4](i => null);
    }

    /** The workers in the list; every slot behind them has been cleared. */
    ghost predicate Shape()
      reads this, ready
    {
      && len <= ready.Length
      && (forall i :: 0 <= i < len ==> ready[i] != null)
      && (forall i :: len <= i < ready.Length ==> ready[i] == null)
    }

    ghost function Ready(): (r: seq<WorkerChan>)
      requires Shape()
      reads this, ready
      ensures |r| == len
    {
      seq(len, i requires 0 <= i < len reads this, ready requires Shape() => ready[i])
    }

    /** Dup-free and in the order of last use; empty once stopped. */
    ghost predicate Valid()
      reads this, ready, if Shape() then set w | w in Ready() else {}
    {
      Shape() && InOrder(Ready()) && (mustStop ==> len == 0)
    }

    /** The most recently used worker; or none, and then whether a new one may be made. */
    method GetCh() returns (ch: WorkerChan?, create: bool)
      requires Valid()
      modifies this`workersCount, this`len, ready
      ensures Valid()
      ensures if old(Ready()) != []
              then ch == old(Ready())[|old(Ready())| - 1] && !create &&
                   Ready() == old(Ready())[..|old(Ready())| - 1] && workersCount == old(workersCount)
              else ch == null && Ready() == [] &&
                   create == (old(workersCount) < maxWorkersCount) &&
                   workersCount == old(workersCount) + (if create then 1 else 0)
    {
      ghost var before := Ready();
      ch, create := null, false;
      if len == 0 {
        if workersCount < maxWorkersCount {
          create := true;
          workersCount := workersCount + 1;
        }
      } else {
        ch := ready[len - 1];
        ready[len - 1] := null;
        len := len - 1;
        assert Ready() == before[..len];
      }
    }

    /** Makes room for one more worker. */
    method Grow()
      requires Shape()
      modifies this`ready
      ensures Shape() && Ready() == old(Ready()) && len < ready.Length
      ensures ready == old(ready) || fresh(ready)
    {
      if len == ready.Length {
        ghost var before := Ready();
        var bigger := new WorkerChan?[2 * len + 1](i => null);
        forall i | 0 <= i < len {
          bigger[i] := ready[i];
        }
        ready := bigger;
        assert Ready() == before;
      }
    }

    /** Stamps the worker and puts it at the end of the list, unless the pool has been stopped. */
    method Release(ch: WorkerChan, now: int) returns (ok: bool)
      requires Valid() && ch !in Ready() && forall w :: w in Ready() ==> w.lastUseTime <= now
      modifies this`ready, this`len, ready, ch
      ensures Valid() && ch.lastUseTime == now && ok == !mustStop
      ensures Ready() == if ok then old(Ready()) + [ch] else old(Ready())
      ensures ready == old(ready) || fresh(ready)
    {
      ghost var before := Ready();
      ch.lastUseTime := now;
      if mustStop {
        return false;
      }
      assert forall i :: 0 <= i < |before| ==> before[i] in before;
      Grow();
      ready[len] := ch;
      len := len + 1;
      assert Ready() == before + [ch];
      return true;
    }

    /** The index of the last worker that was last used before `critical`, or -1. */
    method FindObsolete(critical: int) returns (i: int)
      requires Valid()
      ensures -1 <= i < len
      ensures forall k :: 0 <= k < len ==> (Ready()[k].lastUseTime < critical <==> k <= i)
    {
      var l, r := 0, len - 1;
      while l <= r
        invariant 0 <= l <= r + 1 <= len
        invariant forall k :: 0 <= k < l ==> Ready()[k].lastUseTime < critical
        invariant forall k :: r < k < len ==> Ready()[k].lastUseTime >= critical
      {
        var mid := (l + r) / 2;
        assert ready[mid] == Ready()[mid];
        if critical > ready[mid].lastUseTime {
          l := mid + 1;
        } else {
          r := mid - 1;
        }
      }
      i := r;
    }

    /** Copies the workers behind `i` to the front, as `copy` does for overlapping slices. */
    method Shift(i: nat, ghost before: seq<WorkerChan?>)
      requires i < len <= ready.Length && before == ready[..]
      modifies ready
      ensures forall a :: 0 <= a < len - (i + 1) ==> ready[a] == before[a + i + 1]
      ensures forall a :: len - (i + 1) <= a < ready.Length ==> ready[a] == before[a]
    {
      var m := len - (i + 1);
      var k := 0;
      while k < m
        invariant 0 <= k <= m
        invariant forall a :: 0 <= a < k ==> ready[a] == before[a + i + 1]
        invariant forall a :: k <= a < ready.Length ==> ready[a] == before[a]
      {
        ready[k] := ready[k + i + 1];
        k := k + 1;
      }
    }

    /** Clears the slots from `m` up to the old length. */
    method Clear(m: nat)
      requires m <= len <= ready.Length
      modifies ready
      ensures forall a :: m <= a < len ==> ready[a] == null
      ensures forall a :: 0 <= a < m || len <= a < ready.Length ==> ready[a] == old(ready[a])
    {
      var k := m;
      while k < len
        invariant m <= k <= len
        invariant forall a :: m <= a < k ==> ready[a] == null
        invariant forall a :: 0 <= a < m || k <= a < ready.Length ==> ready[a] == old(ready[a])
      {
        ready[k] := null;
        k := k + 1;
      }
    }

    /** Drops the workers up to `i` from the list, in place. */
    method Compact(i: nat)
      requires Shape() && i < len
      modifies this`len, ready
      ensures Shape() && Ready() == old(Ready())[i + 1..]
    {
      ghost var before := Ready();
      ghost var slots := ready[..];
      var m := len - (i + 1);
      Shift(i, slots);
      Clear(m);
      len := m;
      assert forall a :: 0 <= a < m ==> ready[a] == slots[a + i + 1];
      assert Ready() == before[i + 1..];
    }

    /** What is left is still in order. */
    method Shrink(i: nat)
      requires Valid() && i < len
      modifies this`len, ready
      ensures Valid() && Ready() == old(Ready())[i + 1..]
    {
      SuffixInOrder(Ready(), i + 1);
      Compact(i);
    }

    /** The first `n` workers of the list. */
    method Prefix(n: nat) returns (scratch: seq<WorkerChan>)
      requires Shape() && n <= len
      ensures scratch == Ready()[..n]
    {
      scratch := [];
      var k := 0;
      while k < n
        invariant 0 <= k <= n && scratch == Ready()[..k]
      {
        assert ready[k] == Ready()[k];
        scratch := scratch + [ready[k]];
        k := k + 1;
      }
    }

    /** Splits the list behind place `i`. */
    method TakeOut(i: nat) returns (scratch: seq<WorkerChan>)
      requires Valid() && i < len
      modifies this`len, ready
      ensures Valid() && |scratch| == i + 1 && old(Ready()) == scratch + Ready()
    {
      ghost var before := Ready();
      scratch := Prefix(i + 1);
      Shrink(i);
      assert before == before[..i + 1] + before[i + 1..];
    }

    /** Takes out exactly the workers last used before `critical`; they will be told to quit. */
    method Clean(critical: int) returns (scratch: seq<WorkerChan>)
      requires Valid()
      modifies this`len, ready
      ensures Valid() && old(Ready()) == scratch + Ready()
      ensures forall k :: 0 <= k < |scratch| ==> scratch[k].lastUseTime < critical
      ensures forall k :: 0 <= k < |Ready()| ==> Ready()[k].lastUseTime >= critical
    {
      var i := FindObsolete(critical);
      if i == -1 {
        return [];
      }
      ghost var before := Ready();
      scratch := TakeOut(i);
      assert forall k :: 0 <= k < |scratch| ==> scratch[k] == before[k];
      assert forall k :: 0 <= k < |Ready()| ==> Ready()[k] == before[i + 1 + k];
    }

    /** Empties the list for good; the workers that were in it will be told to quit. */
    method Stop() returns (told: seq<WorkerChan>)
      requires Valid()
      modifies this`len, this`mustStop, ready
      ensures Valid() && mustStop && Ready() == [] && told == old(Ready())
    {
      told := Prefix(len);
      assert told == Ready();
      Clear(0);
      len := 0;
      mustStop := true;
    }
  }
}
