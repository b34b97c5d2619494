/** The cluster simulator: a grid of TaskManagers with slots, filled greedily
    by a tick while a job is "processing", and cleared when it stops. */
module Cluster {

  /** One TaskManager card; `slots[i]` is true when slot i is busy. */
  datatype TaskManager = TaskManager(id: int, slots: seq<bool>, load: real)

  // Ranges of the three configuration sliders.
  const MinParallelism: nat := 1
  const MaxParallelism: nat := 16
  const MinTaskManagers: nat := 1
  const MaxTaskManagers: nat := 8
  const MinSlotsPerTM: nat := 1
  const MaxSlotsPerTM: nat := 4

  /** The load of a fully occupied TaskManager before noise. */
  const BusyLoad: real := 60.0
  /** The noise added to each load is drawn from [0, MaxNoise). */
  const MaxNoise: real := 20.0
  /** Loads are capped at this percentage. */
  const LoadCap: real := 100.0

  predicate ConfigInRange(parallelism: nat, tmCount: nat, slotsPerTM: nat) {
    && MinParallelism <= parallelism <= MaxParallelism
    && MinTaskManagers <= tmCount <= MaxTaskManagers
    && MinSlotsPerTM <= slotsPerTM <= MaxSlotsPerTM
  }

  predicate NoiseInRange(noise: seq<real>) {
    forall i :: 0 <= i < |noise| ==> 0.0 <= noise[i] < MaxNoise
  }

  function Min(a: int, b: int): int { if a < b then a else b }

  function MinReal(a: real, b: real): real { if a < b then a else b }

  /** `n` idle slots. */
  function Idle(n: nat): seq<bool> { seq(n, _ => false) }

  /** The number of busy slots. */
  function CountBusy(s: seq<bool>): (c: nat)
    ensures c <= |s|
    ensures c == 0 <==> forall i :: 0 <= i < |s| ==> !s[i]
  {
    if s == [] then 0 else (if s[0] then 1 else 0) + CountBusy(s[1..])
  }

  /** The number of busy slots over the whole cluster. */
  function TotalBusy(tms: seq<TaskManager>): nat {
    if tms == [] then 0 else CountBusy(tms[0].slots) + TotalBusy(tms[1..])
  }

  /** The number of slots over the whole cluster. */
  function TotalSlotsOf(tms: seq<TaskManager>): nat {
    if tms == [] then 0 else |tms[0].slots| + TotalSlotsOf(tms[1..])
  }

  /** Every TaskManager has exactly `k` slots. */
  predicate Uniform(tms: seq<TaskManager>, k: nat) {
    forall t :: 0 <= t < |tms| ==> |tms[t].slots| == k
  }

  /** `tms` is what the rebuild would lay out for `n` TaskManagers of `k` slots,
      up to occupancy and load. */
  predicate Shaped(tms: seq<TaskManager>, n: nat, k: nat) {
    && |tms| == n
    && Uniform(tms, k)
    && forall t :: 0 <= t < n ==> tms[t].id == t
  }

  /** Same number of TaskManagers, same ids and same slot counts. */
  predicate SameShape(a: seq<TaskManager>, b: seq<TaskManager>) {
    && |a| == |b|
    && forall t :: 0 <= t < |a| ==> a[t].id == b[t].id && |a[t].slots| == |b[t].slots|
  }

  /** Every slot idle and every load 0: what the component shows as "Idle". */
  predicate Quiet(tms: seq<TaskManager>) {
    forall t :: 0 <= t < |tms| ==>
      tms[t].load == 0.0 && forall i :: 0 <= i < |tms[t].slots| ==> !tms[t].slots[i]
  }

  // ---------------------------------------------------------------------
  // Configuration summary

  /** The slot total shown beside the JobManager. */
  function TotalSlots(tmCount: nat, slotsPerTM: nat): (r: nat)
    ensures r == 0 <==> tmCount == 0 || slotsPerTM == 0
    ensures ConfigInRange(MinParallelism, tmCount, slotsPerTM) ==> 1 <= r <= MaxTaskManagers * MaxSlotsPerTM
  {
    assert tmCount * slotsPerTM <= MaxTaskManagers * slotsPerTM || tmCount > MaxTaskManagers;
    tmCount * slotsPerTM
  }

  /** The condition under which the simulator shows its backpressure alert. */
  predicate IsOverprovisioned(parallelism: nat, tmCount: nat, slotsPerTM: nat)
    ensures ConfigInRange(parallelism, tmCount, slotsPerTM) && TotalSlots(tmCount, slotsPerTM) >= MaxParallelism
            ==> !IsOverprovisioned(parallelism, tmCount, slotsPerTM)
  {
    parallelism > TotalSlots(tmCount, slotsPerTM)
  }

  lemma OverprovisionedExample()
    ensures IsOverprovisioned(10, 2, 2)
    ensures !IsOverprovisioned(4, 2, 2)
  {
  }

  // ---------------------------------------------------------------------
  // Rebuild and stop

  /** The cluster the rebuild lays out: ids 0..n-1, all slots idle, no load. */
  function FreshCluster(n: nat, k: nat): (r: seq<TaskManager>)
    ensures Shaped(r, n, k)
    ensures TotalBusy(r) == 0
  {
    if n == 0 then [] else
      var prefix := FreshCluster(n - 1, k);
      assert TotalBusy(prefix + [TaskManager(n - 1, Idle(k), 0.0)]) == 0 by {
        BusyAppend(prefix, TaskManager(n - 1, Idle(k), 0.0));
      }
      prefix + [TaskManager(n - 1, Idle(k), 0.0)]
  }

  lemma {:induction false} BusyAppend(tms: seq<TaskManager>, tm: TaskManager)
    ensures TotalBusy(tms + [tm]) == TotalBusy(tms) + CountBusy(tm.slots)
  {
    if tms != [] {
      assert (tms + [tm])[1..] == tms[1..] + [tm];
      BusyAppend(tms[1..], tm);
    }
  }

  lemma {:induction false} FreshClusterAt(n: nat, k: nat, t: nat)
    requires t < n
    ensures FreshCluster(n, k)[t] == TaskManager(t, Idle(k), 0.0)
  {
    if t < n - 1 {
      FreshClusterAt(n - 1, k, t);
    }
  }

  /** What the stop branch makes of the cluster. */
  function Cleared(tms: seq<TaskManager>): (r: seq<TaskManager>)
    ensures SameShape(r, tms) && Quiet(r) && TotalBusy(r) == 0
  {
    var r := seq(|tms|, t requires 0 <= t < |tms| => tms[t].(slots := Idle(|tms[t].slots|), load := 0.0));
    AllIdleNoBusy(r);
    r
  }

  /** Clearing touches only flags and loads, is idempotent, and leaves a
      quiet cluster as it is. */
  lemma ClearedSpec(tms: seq<TaskManager>)
    ensures forall t :: 0 <= t < |tms| ==> Cleared(tms)[t] == tms[t].(slots := Idle(|tms[t].slots|), load := 0.0)
    ensures Cleared(Cleared(tms)) == Cleared(tms)
    ensures Quiet(tms) ==> Cleared(tms) == tms
  {
    if Quiet(tms) {
      forall t | 0 <= t < |tms| ensures Cleared(tms)[t] == tms[t] {
        assert tms[t].slots == Idle(|tms[t].slots|);
      }
    }
  }

  lemma {:induction false} AllIdleNoBusy(tms: seq<TaskManager>)
    requires forall t, i :: 0 <= t < |tms| && 0 <= i < |tms[t].slots| ==> !tms[t].slots[i]
    ensures TotalBusy(tms) == 0
  {
    if tms != [] {
      assert CountBusy(tms[0].slots) == 0;
      AllIdleNoBusy(tms[1..]);
    }
  }

  /** Stopping a freshly built cluster changes nothing. */
  lemma ClearedFresh(n: nat, k: nat)
    ensures Cleared(FreshCluster(n, k)) == FreshCluster(n, k)
  {
  }

  // ---------------------------------------------------------------------
  // The tick

  /** The slot flags the inner loop leaves for `n` slots when `remaining`
      tasks are still to be placed: the first `remaining` slots are busy. */
  function Fill(n: nat, remaining: nat): seq<bool> {
    seq(n, i => i < remaining)
  }

  /** How many of `n` slots the inner loop fills. */
  function Occupied(n: nat, remaining: nat): nat { Min(n, remaining) }

  /** How many tasks are left for the following TaskManagers. */
  function Left(n: nat, remaining: nat): nat { remaining - Occupied(n, remaining) }

  /** The load a TaskManager with `occupied` busy slots shows: the busy
      fraction of 60 plus the noise, cut off at 100. */
  function TickLoad(occupied: nat, slotsPerTM: nat, noise: real): (l: real)
    requires slotsPerTM > 0
    ensures l <= LoadCap && l <= (occupied as real / slotsPerTM as real) * BusyLoad + noise
    ensures l == LoadCap || l == (occupied as real / slotsPerTM as real) * BusyLoad + noise
  {
    MinReal(LoadCap, (occupied as real / slotsPerTM as real) * BusyLoad + noise)
  }

  /** The map callback's result for one TaskManager. */
  function TickTm(tm: TaskManager, remaining: nat, slotsPerTM: nat, noise: real): (r: TaskManager)
    requires slotsPerTM > 0
    ensures r.id == tm.id && |r.slots| == |tm.slots|
    ensures CountBusy(r.slots) == Occupied(|tm.slots|, remaining) <= remaining
    ensures r.load == TickLoad(CountBusy(r.slots), slotsPerTM, noise)
  {
    var n := |tm.slots|;
    CountFill(n, remaining);
    tm.(slots := Fill(n, remaining), load := TickLoad(Occupied(n, remaining), slotsPerTM, noise))
  }

  /** The whole tick: TaskManagers in order, sharing the count of remaining tasks. */
  function TickAll(tms: seq<TaskManager>, remaining: nat, slotsPerTM: nat, noise: seq<real>): (r: seq<TaskManager>)
    requires slotsPerTM > 0 && |noise| == |tms|
    ensures |r| == |tms|
    ensures TotalBusy(r) <= remaining
  {
    if tms == [] then []
    else [TickTm(tms[0], remaining, slotsPerTM, noise[0])]
         + TickAll(tms[1..], Left(|tms[0].slots|, remaining), slotsPerTM, noise[1..])
  }

  lemma {:induction false} CountFill(n: nat, remaining: nat)
    ensures CountBusy(Fill(n, remaining)) == Occupied(n, remaining)
  {
    if n > 0 {
      var rest := if remaining > 0 then remaining - 1 else 0;
      assert Fill(n, remaining)[1..] == Fill(n - 1, rest);
      CountFill(n - 1, rest);
    }
  }

  /** A tick keeps the number of TaskManagers, their ids and their slot counts. */
  lemma {:induction false} TickPreservesShape(tms: seq<TaskManager>, remaining: nat, slotsPerTM: nat, noise: seq<real>)
    requires slotsPerTM > 0 && |noise| == |tms|
    ensures SameShape(TickAll(tms, remaining, slotsPerTM, noise), tms)
  {
    if tms != [] {
      TickPreservesShape(tms[1..], Left(|tms[0].slots|, remaining), slotsPerTM, noise[1..]);
    }
  }

  /** A tick places min(remaining, capacity) tasks; the rest are recorded nowhere. */
  lemma {:induction false} TickBusyCount(tms: seq<TaskManager>, remaining: nat, slotsPerTM: nat, noise: seq<real>)
    requires slotsPerTM > 0 && |noise| == |tms|
    ensures TotalBusy(TickAll(tms, remaining, slotsPerTM, noise)) == Min(remaining, TotalSlotsOf(tms))
  {
    if tms != [] {
      var r := TickAll(tms, remaining, slotsPerTM, noise);
      assert r[0] == TickTm(tms[0], remaining, slotsPerTM, noise[0]);
      assert r[1..] == TickAll(tms[1..], Left(|tms[0].slots|, remaining), slotsPerTM, noise[1..]);
      CountFill(|tms[0].slots|, remaining);
      TickBusyCount(tms[1..], Left(|tms[0].slots|, remaining), slotsPerTM, noise[1..]);
    }
  }

  lemma {:induction false} UniformTotal(tms: seq<TaskManager>, k: nat)
    requires Uniform(tms, k)
    ensures TotalSlotsOf(tms) == |tms| * k
  {
    if tms != [] {
      UniformTotal(tms[1..], k);
      assert |tms| * k == k + (|tms| - 1) * k;
    }
  }

  /** Occupancy is a prefix in (TaskManager, slot) order: with `k` slots per
      TaskManager, slot i of TaskManager t is busy iff t*k + i < remaining. */
  lemma {:induction false} TickPrefix(tms: seq<TaskManager>, remaining: nat, k: nat, noise: seq<real>, t: nat, i: nat)
    requires k > 0 && |noise| == |tms| && Uniform(tms, k)
    requires t < |tms| && i < k
    ensures |TickAll(tms, remaining, k, noise)[t].slots| == k
    ensures TickAll(tms, remaining, k, noise)[t].slots[i] <==> t * k + i < remaining
  {
    var r := TickAll(tms, remaining, k, noise);
    var left := Left(k, remaining);
    if t == 0 {
      assert r[0] == TickTm(tms[0], remaining, k, noise[0]);
      assert r[0].slots == Fill(k, remaining);
    } else {
      assert r[1..] == TickAll(tms[1..], left, k, noise[1..]);
      assert r[t] == TickAll(tms[1..], left, k, noise[1..])[t - 1];
      TickPrefix(tms[1..], left, k, noise[1..], t - 1, i);
      PrefixShift(remaining, k, t, i);
    }
  }

  /** Passing one TaskManager of `k` slots shifts the prefix bound by `k`. */
  lemma PrefixShift(remaining: nat, k: nat, t: nat, i: nat)
    requires 0 < t && i < k
    ensures (t - 1) * k + i < Left(k, remaining) <==> t * k + i < remaining
  {
  }

  /** A tick's result does not depend on the previous flags or loads: ticking
      twice is ticking once with the second noise. */
  lemma {:induction false} TickIdempotent(tms: seq<TaskManager>, remaining: nat, slotsPerTM: nat, first: seq<real>, second: seq<real>)
    requires slotsPerTM > 0 && |first| == |tms| && |second| == |tms|
    ensures TickAll(TickAll(tms, remaining, slotsPerTM, first), remaining, slotsPerTM, second)
         == TickAll(tms, remaining, slotsPerTM, second)
  {
    if tms != [] {
      var once := TickAll(tms, remaining, slotsPerTM, first);
      assert once[1..] == TickAll(tms[1..], Left(|tms[0].slots|, remaining), slotsPerTM, first[1..]);
      TickIdempotent(tms[1..], Left(|tms[0].slots|, remaining), slotsPerTM, first[1..], second[1..]);
    }
  }

  /** Ticking a stopped cluster gives the same result as ticking it in any other state. */
  lemma {:induction false} TickIgnoresOccupancy(tms: seq<TaskManager>, remaining: nat, slotsPerTM: nat, noise: seq<real>)
    requires slotsPerTM > 0 && |noise| == |tms|
    ensures TickAll(Cleared(tms), remaining, slotsPerTM, noise) == TickAll(tms, remaining, slotsPerTM, noise)
  {
    if tms != [] {
      assert Cleared(tms)[1..] == Cleared(tms[1..]);
      TickIgnoresOccupancy(tms[1..], Left(|tms[0].slots|, remaining), slotsPerTM, noise[1..]);
    }
  }

  /** Each TaskManager's load is computed from its own busy count and its own
      noise, and lies in [0, 100]; with `slotsPerTM` slots per TaskManager the
      cap is never reached and the load stays below 80. */
  lemma {:induction false} TickLoadBounds(tms: seq<TaskManager>, remaining: nat, slotsPerTM: nat, noise: seq<real>, t: nat)
    requires slotsPerTM > 0 && |noise| == |tms| && NoiseInRange(noise)
    requires t < |tms|
    ensures var tm := TickAll(tms, remaining, slotsPerTM, noise)[t];
      && CountBusy(tm.slots) <= |tm.slots|
      && tm.load == TickLoad(CountBusy(tm.slots), slotsPerTM, noise[t])
      && 0.0 <= tm.load <= LoadCap
      && (Uniform(tms, slotsPerTM) ==>
            tm.load == (CountBusy(tm.slots) as real / slotsPerTM as real) * BusyLoad + noise[t]
            && tm.load < BusyLoad + MaxNoise)
  {
    var r := TickAll(tms, remaining, slotsPerTM, noise);
    var left := Left(|tms[0].slots|, remaining);
    assert r[1..] == TickAll(tms[1..], left, slotsPerTM, noise[1..]);
    if t > 0 {
      assert r[t] == TickAll(tms[1..], left, slotsPerTM, noise[1..])[t - 1];
      TickLoadBounds(tms[1..], left, slotsPerTM, noise[1..], t - 1);
    } else {
      var n := |tms[0].slots|;
      var occ := Occupied(n, remaining);
      CountFill(n, remaining);
      assert r[0].slots == Fill(n, remaining);
      LoadFraction(occ, slotsPerTM, n);
    }
  }

  lemma LoadFraction(occupied: nat, slotsPerTM: nat, n: nat)
    requires slotsPerTM > 0 && occupied <= n
    ensures 0.0 <= occupied as real / slotsPerTM as real
    ensures n == slotsPerTM ==> occupied as real / slotsPerTM as real <= 1.0
  {
  }

  /** On a cluster laid out by the rebuild, the alert shows exactly when a tick
      leaves some of the `parallelism` tasks unplaced. */
  lemma OverprovisionedIffUnplaced(tms: seq<TaskManager>, parallelism: nat, tmCount: nat, slotsPerTM: nat, noise: seq<real>)
    requires slotsPerTM > 0 && Shaped(tms, tmCount, slotsPerTM) && |noise| == tmCount
    ensures IsOverprovisioned(parallelism, tmCount, slotsPerTM)
        <==> TotalBusy(TickAll(tms, parallelism, slotsPerTM, noise)) < parallelism
  {
    TickBusyCount(tms, parallelism, slotsPerTM, noise);
    UniformTotal(tms, slotsPerTM);
  }

  /** One step of the tick's outer loop: TaskManager j, then the rest. */
  lemma TickAllFrom(tms: seq<TaskManager>, remaining: nat, slotsPerTM: nat, noise: seq<real>, j: nat)
    requires slotsPerTM > 0 && |noise| == |tms| && j < |tms|
    ensures TickAll(tms[j..], remaining, slotsPerTM, noise[j..])
         == [TickTm(tms[j], remaining, slotsPerTM, noise[j])]
            + TickAll(tms[j + 1..], Left(|tms[j].slots|, remaining), slotsPerTM, noise[j + 1..])
  {
  }

  /** The facts a tick establishes on a cluster laid out by the rebuild. */
  lemma TickOnCluster(tms: seq<TaskManager>, parallelism: nat, tmCount: nat, slotsPerTM: nat, noise: seq<real>)
    requires slotsPerTM > 0 && Shaped(tms, tmCount, slotsPerTM)
    requires |noise| == tmCount && NoiseInRange(noise)
    ensures var r := TickAll(tms, parallelism, slotsPerTM, noise);
      && Shaped(r, tmCount, slotsPerTM)
      && SameShape(r, tms)
      && TotalBusy(r) == Min(parallelism, TotalSlots(tmCount, slotsPerTM))
      && (forall t, i :: 0 <= t < tmCount && 0 <= i < slotsPerTM ==>
            (r[t].slots[i] <==> t * slotsPerTM + i < parallelism))
      && (forall t :: 0 <= t < tmCount ==> 0.0 <= r[t].load < BusyLoad + MaxNoise)
  {
    var r := TickAll(tms, parallelism, slotsPerTM, noise);
    TickPreservesShape(tms, parallelism, slotsPerTM, noise);
    TickBusyCount(tms, parallelism, slotsPerTM, noise);
    UniformTotal(tms, slotsPerTM);
    forall t, i | 0 <= t < tmCount && 0 <= i < slotsPerTM
      ensures r[t].slots[i] <==> t * slotsPerTM + i < parallelism
    {
      TickPrefix(tms, parallelism, slotsPerTM, noise, t, i);
    }
    forall t | 0 <= t < tmCount ensures 0.0 <= r[t].load < BusyLoad + MaxNoise {
      TickLoadBounds(tms, parallelism, slotsPerTM, noise, t);
    }
  }

  /** The tick's map callback for one TaskManager: it copies the slots into a
      fresh array, overwrites every entry and computes the load. */
  method FillTm(tm: TaskManager, remaining: nat, slotsPerTM: nat, noise: real) returns (r: TaskManager, rest: nat)
    requires slotsPerTM > 0
    ensures r == TickTm(tm, remaining, slotsPerTM, noise)
    ensures rest == Left(|tm.slots|, remaining)
  {
    var mySlots := new bool[|tm.slots|](i requires 0 <= i < |tm.slots| => tm.slots[i]);
    var occupiedCount: nat := 0;
    rest := remaining;
    for i := 0 to mySlots.Length
      invariant occupiedCount == Occupied(i, remaining)
      invariant rest == remaining - occupiedCount
      invariant forall j :: 0 <= j < i ==> mySlots[j] == (j < remaining)
    {
      if rest > 0 {
        mySlots[i] := true;
        occupiedCount := occupiedCount + 1;
        rest := rest - 1;
      } else {
        mySlots[i] := false;
      }
    }
    assert mySlots[..] == Fill(|tm.slots|, remaining);
    r := tm.(slots := mySlots[..], load := TickLoad(occupiedCount, slotsPerTM, noise));
  }

  /** The updater passed to `setTms` on each tick: `prev.map` over the
      TaskManagers in order, threading the count of remaining tasks through
      the callback. */
  method TickList(prev: seq<TaskManager>, parallelism: nat, slotsPerTM: nat, noise: seq<real>)
    returns (next: seq<TaskManager>)
    requires slotsPerTM > 0 && |noise| == |prev|
    ensures next == TickAll(prev, parallelism, slotsPerTM, noise)
  {
    var remainingTasks := parallelism;
    next := [];
    for j := 0 to |prev|
      invariant |next| == j
      invariant next + TickAll(prev[j..], remainingTasks, slotsPerTM, noise[j..])
             == TickAll(prev, parallelism, slotsPerTM, noise)
    {
      var tm, rest := FillTm(prev[j], remainingTasks, slotsPerTM, noise[j]);
      TickAllFrom(prev, remainingTasks, slotsPerTM, noise, j);
      assert next + [tm] + TickAll(prev[j + 1..], rest, slotsPerTM, noise[j + 1..])
          == next + TickAll(prev[j..], remainingTasks, slotsPerTM, noise[j..]);
      next := next + [tm];
      remainingTasks := rest;
    }
    assert TickAll(prev[|prev|..], remainingTasks, slotsPerTM, noise[|prev|..]) == [];
  }

  // ---------------------------------------------------------------------
  // The component state

  class Simulator {
    var parallelism: nat
    var slotsPerTM: nat
    var tmCount: nat
    var tms: seq<TaskManager>
    var isProcessing: bool

    /** The sliders are in range, the cluster has the configured shape, and
        it is quiet whenever no job is processing. */
    predicate Valid()
      reads this
    {
      && ConfigInRange(parallelism, tmCount, slotsPerTM)
      && Shaped(tms, tmCount, slotsPerTM)
      && (!isProcessing ==> Quiet(tms))
    }

    /** The initial state after both effects have run once. */
    constructor ()
      ensures Valid()
      ensures parallelism == 4 && slotsPerTM == 2 && tmCount == 2 && !isProcessing
      ensures tms == FreshCluster(2, 2)
    {
      parallelism, slotsPerTM, tmCount := 4, 2, 2;
      isProcessing := false;
      tms := [];
      new;
      Rebuild();
      Stop();
      ClearedFresh(2, 2);
    }

    /** The rebuild effect: `tmCount` TaskManagers, ids in order, `slotsPerTM`
        idle slots each, load 0. */
    method Rebuild()
      requires ConfigInRange(parallelism, tmCount, slotsPerTM)
      modifies this`tms
      ensures Valid()
      ensures tms == FreshCluster(tmCount, slotsPerTM)
      ensures |tms| == tmCount
      ensures forall t :: 0 <= t < tmCount ==> tms[t] == TaskManager(t, Idle(slotsPerTM), 0.0)
    {
      var newTms: seq<TaskManager> := [];
      for i := 0 to tmCount
        invariant newTms == FreshCluster(i, slotsPerTM)
      {
        newTms := newTms + [TaskManager(i, Idle(slotsPerTM), 0.0)];
      }
      tms := newTms;
      forall t | 0 <= t < tmCount ensures tms[t] == TaskManager(t, Idle(slotsPerTM), 0.0) {
        FreshClusterAt(tmCount, slotsPerTM, t);
      }
      assert Quiet(tms);
    }

    /** The stop branch of the load effect. */
    method Stop()
      requires ConfigInRange(parallelism, tmCount, slotsPerTM) && Shaped(tms, tmCount, slotsPerTM)
      modifies this`tms
      ensures Valid()
      ensures tms == Cleared(old(tms))
      ensures SameShape(tms, old(tms)) && Quiet(tms) && TotalBusy(tms) == 0
    {
      tms := Cleared(tms);
    }

    /** One firing of the interval while processing; `noise[t]` stands for
        the random term of TaskManager t. */
    method Tick(noise: seq<real>)
      requires Valid() && isProcessing
      requires |noise| == |tms| && NoiseInRange(noise)
      modifies this`tms
      ensures Valid()
      ensures tms == TickAll(old(tms), parallelism, slotsPerTM, noise)
      ensures SameShape(tms, old(tms))
      ensures TotalBusy(tms) == Min(parallelism, TotalSlots(tmCount, slotsPerTM))
      ensures forall t, i :: 0 <= t < tmCount && 0 <= i < slotsPerTM ==>
                (tms[t].slots[i] <==> t * slotsPerTM + i < parallelism)
      ensures forall t :: 0 <= t < tmCount ==> 0.0 <= tms[t].load < BusyLoad + MaxNoise
    {
      var prev := tms;
      tms := TickList(prev, parallelism, slotsPerTM, noise);
      TickOnCluster(prev, parallelism, tmCount, slotsPerTM, noise);
    }

    /** Moving the parallelism slider. React ignores a set to the current
        value; a real change re-runs the load effect, whose stop branch leaves
        a quiet cluster as it is. */
    method SetParallelism(v: nat)
      requires Valid() && MinParallelism <= v <= MaxParallelism
      modifies this`parallelism, this`tms
      ensures Valid() && parallelism == v
      ensures tms == old(tms)
    {
      if v != parallelism {
        parallelism := v;
        if !isProcessing {
          ClearedSpec(tms);
          Stop();
        }
      }
    }

    /** Moving the TaskManager slider. A real change re-runs both effects;
        a set to the current value changes nothing. */
    method SetTaskManagers(v: nat)
      requires Valid() && MinTaskManagers <= v <= MaxTaskManagers
      modifies this`tmCount, this`tms
      ensures Valid() && tmCount == v
      ensures tms == if v == old(tmCount) then old(tms) else FreshCluster(v, slotsPerTM)
    {
      if v != tmCount {
        tmCount := v;
        Rebuild();
        if !isProcessing {
          Stop();
          ClearedFresh(tmCount, slotsPerTM);
        }
      }
    }

    /** Moving the slots slider. A real change re-runs both effects; a set to
        the current value changes nothing. */
    method SetSlotsPerTM(v: nat)
      requires Valid() && MinSlotsPerTM <= v <= MaxSlotsPerTM
      modifies this`slotsPerTM, this`tms
      ensures Valid() && slotsPerTM == v
      ensures tms == if v == old(slotsPerTM) then old(tms) else FreshCluster(tmCount, v)
    {
      if v != slotsPerTM {
        slotsPerTM := v;
        Rebuild();
        if !isProcessing {
          Stop();
          ClearedFresh(tmCount, slotsPerTM);
        }
      }
    }

    /** The Start Job / Stop Workload button; stopping clears the cluster,
        starting only arms the interval. */
    method ToggleProcessing()
      requires Valid()
      modifies this`isProcessing, this`tms
      ensures Valid() && isProcessing == !old(isProcessing)
      ensures tms == if isProcessing then old(tms) else Cleared(old(tms))
      ensures !isProcessing ==> TotalBusy(tms) == 0
    {
      isProcessing := !isProcessing;
      if !isProcessing {
        Stop();
      }
    }
  }
}
