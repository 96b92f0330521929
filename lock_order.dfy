/**
 The deterministic lock order of a transfer, and why it rules out deadlock.

 A transfer reads its two keys smaller first, whatever their from/to roles.
 The code's own comment at that point says that in pessimistic mode each of
 these reads takes the key's lock, held until commit or rollback; the model
 takes that as given and treats the reads as the lock points. This module
 states that order and proves the argument behind it: transactions that each
 lock their keys in ascending order can never wait for one another in a
 cycle.
 */
module LockOrder {
  import opened JavaInt

  predicate Ascending(s: seq<Int32>) {
    forall i, j :: 0 <= i < j < |s| ==> s[i] <= s[j]
  }

  /** The keys a transfer between `from` and `to` locks, in the order it
      locks them. */
  function TransferLockOrder(from: Int32, to: Int32): (r: seq<Int32>)
    ensures |r| == 2 && Ascending(r)
    ensures multiset(r) == multiset{from, to}
  {
    if from < to then [from, to] else [to, from]
  }

  /** The lock order depends on the two keys only, not on which one is debited. */
  lemma LockOrderIgnoresRoles(from: Int32, to: Int32)
    ensures TransferLockOrder(from, to) == TransferLockOrder(to, from)
  {
  }

  /** A transaction that means to lock the keys `order` one after another, has
      taken the first `acquired` of them, and asks for the next. */
  datatype Waiter = Waiter(order: seq<Int32>, acquired: nat)

  /** The waiter really waits: it asks for a key it does not hold already
      (a lock a transaction holds is granted to it again at once). */
  predicate Blocked(w: Waiter) {
    w.acquired < |w.order| && w.order[w.acquired] !in w.order[..w.acquired]
  }

  function Wanted(w: Waiter): Int32
    requires w.acquired < |w.order|
  {
    w.order[w.acquired]
  }

  predicate Holds(w: Waiter, k: Int32) {
    k in w.order[..if w.acquired <= |w.order| then w.acquired else |w.order|]
  }

  /** `a` waits for `b`: the key `a` asks for is held by `b`. */
  predicate WaitsFor(a: Waiter, b: Waiter) {
    a.acquired < |a.order| && Holds(b, Wanted(a))
  }

  /** Waiter `i` waits for the one after it, the last one for the first. */
  predicate WaitsForNext(ts: seq<Waiter>, i: nat)
    requires i < |ts|
  {
    WaitsFor(ts[i], ts[(i + 1) % |ts|])
  }

  /** Each waiter waits for the next one, and the last for the first. */
  predicate WaitCycle(ts: seq<Waiter>) {
    |ts| > 0 && forall i :: 0 <= i < |ts| ==> WaitsForNext(ts, i)
  }

  predicate AllAscendingAndBlocked(ts: seq<Waiter>) {
    forall i :: 0 <= i < |ts| ==> Blocked(ts[i]) && Ascending(ts[i].order)
  }

  /** Waiting for an ascending waiter means waiting for a smaller key than the
      one it is itself waiting for. */
  lemma WaitRaisesKey(a: Waiter, b: Waiter)
    requires Blocked(b) && Ascending(b.order) && WaitsFor(a, b)
    ensures Wanted(a) < Wanted(b)
  {
    var q :| 0 <= q < b.acquired && b.order[q] == Wanted(a);
    assert b.order[q] <= b.order[b.acquired];
    assert b.order[q] in b.order[..b.acquired];
  }

  lemma {:induction false} WantedIncreasesAlongCycle(ts: seq<Waiter>, i: nat)
    requires AllAscendingAndBlocked(ts) && WaitCycle(ts)
    requires 0 < i < |ts|
    ensures Wanted(ts[0]) < Wanted(ts[i])
  {
    assert WaitsForNext(ts, i - 1);
    assert (i - 1 + 1) % |ts| == i;
    WaitRaisesKey(ts[i - 1], ts[i]);
    if i > 1 {
      WantedIncreasesAlongCycle(ts, i - 1);
    }
  }

  /** Deadlock freedom: among transactions that lock in ascending key order,
      no set of blocked ones waits for each other in a cycle. */
  lemma NoWaitCycle(ts: seq<Waiter>)
    requires AllAscendingAndBlocked(ts)
    ensures !WaitCycle(ts)
  {
    if WaitCycle(ts) {
      var n := |ts|;
      assert WaitsForNext(ts, n - 1);
      assert (n - 1 + 1) % n == 0;
      WaitRaisesKey(ts[n - 1], ts[0]);
      if n > 1 {
        WantedIncreasesAlongCycle(ts, n - 1);
      }
      assert false;
    }
  }

  /** The waiters of a set of transfers, each blocked part-way through its
      lock order. */
  function TransferWaiters(transfers: seq<(Int32, Int32)>, acquired: seq<nat>): (ts: seq<Waiter>)
    requires |acquired| == |transfers|
    ensures |ts| == |transfers|
    ensures forall i :: 0 <= i < |ts| ==>
      ts[i] == Waiter(TransferLockOrder(transfers[i].0, transfers[i].1), acquired[i])
  {
    if transfers == [] then []
    else
      [Waiter(TransferLockOrder(transfers[0].0, transfers[0].1), acquired[0])]
      + TransferWaiters(transfers[1..], acquired[1..])
  }

  /** Concurrent transfers that each lock smaller key first cannot deadlock,
      whatever their from/to roles. */
  lemma TransfersCannotDeadlock(transfers: seq<(Int32, Int32)>, acquired: seq<nat>)
    requires |acquired| == |transfers|
    requires forall i :: 0 <= i < |transfers| ==> acquired[i] < 2
    requires forall i :: 0 <= i < |transfers| ==>
      transfers[i].0 != transfers[i].1 || acquired[i] == 0
    ensures !WaitCycle(TransferWaiters(transfers, acquired))
  {
    var ts := TransferWaiters(transfers, acquired);
    forall i | 0 <= i < |ts|
      ensures Blocked(ts[i]) && Ascending(ts[i].order)
    {
      assert ts[i].order == TransferLockOrder(transfers[i].0, transfers[i].1);
    }
    NoWaitCycle(ts);
  }

  /** The order matters: two transfers between the same accounts in opposite
      directions that locked in request order (from first) could each hold
      one key and wait for the other's. */
  lemma RequestOrderCanDeadlock()
    ensures WaitCycle([Waiter([1, 2], 1), Waiter([2, 1], 1)])
    ensures Blocked(Waiter([1, 2], 1)) && Blocked(Waiter([2, 1], 1))
    ensures !Ascending([2, 1])
  {
    var a, b := Waiter([1, 2], 1), Waiter([2, 1], 1);
    assert a.order[..1] == [1] && b.order[..1] == [2];
    assert Wanted(a) == 2 && Wanted(b) == 1;
    assert WaitsFor(a, b) && WaitsFor(b, a);
    var ts := [a, b];
    assert WaitsForNext(ts, 0) && WaitsForNext(ts, 1);
  }
}
