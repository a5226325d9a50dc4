/** The dispatch loop of `Worker` (pkg/workers.go, pkg/main.go) with the
    goroutines taken away: the dequeued indices are processed one after the
    other by the per-group computation. */
module Dispatch {
  import opened Wrappers
  import opened Types
  import opened Workers

  /** No index occurs twice. */
  ghost predicate Distinct(queue: seq<int>) {
    forall i, j :: 0 <= i < j < |queue| ==> queue[i] != queue[j]
  }

  /** Process the queued indices in order, stopping at the first fault. */
  function RunQueue(pool: Pool, queue: seq<int>, supply: seq<real>, profiles: ProfileMap): (r: Result<Pool, Fault>)
    requires |supply| >= 1 && ProfilesSpan(profiles, |supply|)
    ensures r.Success? ==> |r.value| == |pool|
    ensures r.Success? ==> forall k :: 0 <= k < |pool| && k !in queue ==> r.value[k] == pool[k]
    decreases |queue|
  {
    if |queue| == 0 then Success(pool)
    else match Worker(pool, queue[0], supply, profiles)
      case Failure(e) => Failure(e)
      case Success(next) => RunQueue(next, queue[1..], supply, profiles)
  }

  /** A worker reads and writes only the slot it dequeued. */
  lemma WorkerIsLocal(p1: Pool, p2: Pool, key: int, supply: seq<real>, profiles: ProfileMap)
    requires |supply| >= 1 && ProfilesSpan(profiles, |supply|)
    requires |p1| == |p2| && 0 <= key < |p1| && p1[key] == p2[key]
    ensures Worker(p1, key, supply, profiles).Success? == Worker(p2, key, supply, profiles).Success?
    ensures Worker(p1, key, supply, profiles).Success? ==>
      Worker(p1, key, supply, profiles).value[key] == Worker(p2, key, supply, profiles).value[key]
  {
  }

  /** With every index queued once and every group computable, each queued
      slot ends up exactly as its own worker leaves it and every other slot
      is untouched: no group is processed twice and none is skipped. */
  lemma {:induction false} EachIndexProcessedOnce(pool: Pool, queue: seq<int>, supply: seq<real>, profiles: ProfileMap)
    requires |supply| >= 1 && ProfilesSpan(profiles, |supply|)
    requires Distinct(queue)
    requires forall k :: k in queue ==> Ready(pool, k, profiles)
    ensures RunQueue(pool, queue, supply, profiles).Success?
    ensures forall k :: k in queue ==> 0 <= k < |pool|
    ensures forall k :: k in queue ==>
      RunQueue(pool, queue, supply, profiles).value[k] == Worker(pool, k, supply, profiles).value[k]
    ensures forall k :: 0 <= k < |pool| && k !in queue ==> RunQueue(pool, queue, supply, profiles).value[k] == pool[k]
    decreases |queue|
  {
    if |queue| > 0 {
      var key := queue[0];
      var next := Worker(pool, key, supply, profiles).value;
      var rest := queue[1..];
      assert key !in rest;
      forall k | k in rest
        ensures Ready(next, k, profiles)
        ensures Worker(next, k, supply, profiles).value[k] == Worker(pool, k, supply, profiles).value[k]
      {
        var j :| 0 <= j < |rest| && rest[j] == k;
        assert queue[j + 1] == k && k in queue && k != key;
        assert Worker(pool, k, supply, profiles).Success?;
        WorkerIsLocal(pool, next, k, supply, profiles);
      }
      assert Distinct(rest);
      EachIndexProcessedOnce(next, rest, supply, profiles);
    }
  }

  /** Helper for DispatchOrderIrrelevant: queues with one multiset of
      indices queue the same indices. */
  lemma SameMembers(q1: seq<int>, q2: seq<int>)
    requires multiset(q1) == multiset(q2)
    ensures forall k :: k in q1 <==> k in q2
  {
    forall k ensures k in q1 <==> k in q2 {
      assert k in q1 <==> k in multiset(q1);
      assert k in q2 <==> k in multiset(q2);
    }
  }

  /** Two dispatch orders of the same distinct indices give the same pool:
      the result does not depend on which worker takes which index when. */
  lemma DispatchOrderIrrelevant(pool: Pool, q1: seq<int>, q2: seq<int>, supply: seq<real>, profiles: ProfileMap)
    requires |supply| >= 1 && ProfilesSpan(profiles, |supply|)
    requires Distinct(q1) && Distinct(q2) && multiset(q1) == multiset(q2)
    requires forall k :: k in q1 ==> Ready(pool, k, profiles)
    ensures RunQueue(pool, q1, supply, profiles).Success?
    ensures RunQueue(pool, q2, supply, profiles).Success?
    ensures RunQueue(pool, q1, supply, profiles).value == RunQueue(pool, q2, supply, profiles).value
  {
    SameMembers(q1, q2);
    EachIndexProcessedOnce(pool, q1, supply, profiles);
    EachIndexProcessedOnce(pool, q2, supply, profiles);
    var r1 := RunQueue(pool, q1, supply, profiles).value;
    var r2 := RunQueue(pool, q2, supply, profiles).value;
    assert forall k :: 0 <= k < |pool| ==> r1[k] == r2[k];
  }

  /** A group whose channel holds exactly its parcel count is drained by its
      worker, so dispatching its index a second time (a duplicated
      circuit-group id) blocks the worker on an empty channel. */
  lemma SecondDispatchBlocks(pool: Pool, key: int, supply: seq<real>, profiles: ProfileMap)
    requires |supply| >= 1 && ProfilesSpan(profiles, |supply|)
    requires 0 <= key < |pool| && pool[key].Some?
    requires Ready(pool, key, profiles) && |pool[key].value.Parcels| == pool[key].value.ParcelCount
    ensures Worker(pool, key, supply, profiles).Success?
    ensures Worker(Worker(pool, key, supply, profiles).value, key, supply, profiles) == Failure(BufferUnderfilled(0))
  {
  }
}
