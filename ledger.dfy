/**
 The abstract ledger: the map from account id to balance that the bank's
 cache holds, the errors its operations report, and the effect of a
 transfer on that map. The bank's methods are specified in these terms.
 */
module Ledger {
  import opened JavaInt
  import opened Wrappers
  import opened LockOrder

  /** Why a transfer transaction failed and was rolled back. */
  datatype Cause =
    | NoAccount(id: Int32)      // the existence check found no such account
    | LockTimeout(key: Int32)   // reading the key did not get its lock in time
    | CommitFailed              // the cluster did not commit the transaction

  /** The exceptions the bank throws. A failed transfer surfaces as one
      failure wrapping its cause. */
  datatype BankError =
    | AccountAlreadyExisting(id: Int32)
    | AccountNotExisting(id: Int32)
    | TransactionFailed(cause: Cause)

  /** What the cluster does during one transfer: the keys whose lock is not
      granted before the acquisition timeout, and whether commit fails. */
  datatype Faults = Faults(timedOut: set<Int32>, commitFails: bool)

  const NoFaults: Faults := Faults({}, false)

  /** The balance of every account, by id. */
  type Balances = map<Int32, Int32>

  /** The sum of all balances, as a mathematical integer. */
  ghost function Total(m: Balances): int
    decreases |m|
  {
    if m == map[] then 0
    else
      var k :| k in m;
      m[k] as int + Total(m - {k})
  }

  /** The sum can be split at any account, not only the one Total picks. */
  lemma {:induction false} TotalRemove(m: Balances, k: Int32)
    requires k in m
    ensures Total(m) == m[k] as int + Total(m - {k})
    decreases |m|
  {
    var j :| j in m && Total(m) == m[j] as int + Total(m - {j});
    if j != k {
      assert m - {j} - {k} == m - {k} - {j};
      TotalRemove(m - {j}, k);
      TotalRemove(m - {k}, j);
    }
  }

  /** Changing one balance changes the sum by the difference. */
  lemma TotalUpdate(m: Balances, k: Int32, v: Int32)
    requires k in m
    ensures Total(m[k := v]) == Total(m) - m[k] as int + v as int
  {
    TotalRemove(m, k);
    TotalRemove(m[k := v], k);
    assert m[k := v] - {k} == m - {k};
  }

  /** Adding an account adds its balance to the sum. */
  lemma TotalInsert(m: Balances, k: Int32, v: Int32)
    requires k !in m
    ensures Total(m[k := v]) == Total(m) + v as int
  {
    TotalRemove(m[k := v], k);
    assert m[k := v] - {k} == m;
  }

  /** The balances after `from` is debited and then `to` credited by
      `amount`, each with Java's wrap-around. */
  function Transferred(m: Balances, from: Int32, to: Int32, amount: Int32): Balances
    requires from in m && to in m
  {
    var debited := m[from := Sub(m[from], amount)];
    debited[to := Add(debited[to], amount)]
  }

  /** What a transfer does to each account: `from` loses `amount`, `to` gains
      it, nobody else changes and no account appears or disappears. No lower
      bound is put on the new balance. A transfer from an account to itself
      gives the account back its balance. */
  lemma TransferredBalances(m: Balances, from: Int32, to: Int32, amount: Int32)
    requires from in m && to in m
    ensures Transferred(m, from, to, amount).Keys == m.Keys
    ensures from != to ==>
      Transferred(m, from, to, amount)[from] == Sub(m[from], amount) &&
      Transferred(m, from, to, amount)[to] == Add(m[to], amount)
    ensures from == to ==> Transferred(m, from, to, amount) == m
    ensures forall k :: k in m && k != from && k != to ==>
      Transferred(m, from, to, amount)[k] == m[k]
  {
    if from == to {
      SubThenAdd(m[from], amount);
      assert Transferred(m, from, to, amount) == m[from := m[from]];
    }
  }

  /** Rollback: writing back the two balances read before a transfer, `to`
      first and `from` last, undoes the transfer. */
  lemma RollbackRestores(m: Balances, from: Int32, to: Int32, amount: Int32)
    requires from in m && to in m
    ensures Transferred(m, from, to, amount)[to := m[to]][from := m[from]] == m
  {
    var r := Transferred(m, from, to, amount)[to := m[to]][from := m[from]];
    assert r.Keys == m.Keys;
  }

  /** The exact sum after a transfer between two accounts: the old sum plus
      what wrap-around added to each of the two new balances. */
  lemma TransferredTotal(m: Balances, from: Int32, to: Int32, amount: Int32)
    requires from in m && to in m && from != to
    ensures Total(Transferred(m, from, to, amount)) ==
      Total(m)
      + (Sub(m[from], amount) as int - (m[from] as int - amount as int))
      + (Add(m[to], amount) as int - (m[to] as int + amount as int))
  {
    var debited := m[from := Sub(m[from], amount)];
    TotalUpdate(m, from, Sub(m[from], amount));
    assert debited[to] == m[to];
    TotalUpdate(debited, to, Add(m[to], amount));
  }

  /** Conservation: a transfer leaves the 32-bit sum of all balances as it
      was, and when neither new balance overflows, the exact sum too. */
  lemma TransferConservesTotal(m: Balances, from: Int32, to: Int32, amount: Int32)
    requires from in m && to in m
    ensures Wrap(Total(Transferred(m, from, to, amount))) == Wrap(Total(m))
    ensures InRange(m[from] as int - amount as int) && InRange(m[to] as int + amount as int) ==>
      Total(Transferred(m, from, to, amount)) == Total(m)
  {
    if from == to {
      TransferredBalances(m, from, to, amount);
    } else {
      TransferBetweenTwoConservesTotal(m, from, to, amount);
    }
  }

  /** Conservation for a transfer between two distinct accounts. */
  lemma TransferBetweenTwoConservesTotal(m: Balances, from: Int32, to: Int32, amount: Int32)
    requires from in m && to in m && from != to
    ensures Wrap(Total(Transferred(m, from, to, amount))) == Wrap(Total(m))
    ensures InRange(m[from] as int - amount as int) && InRange(m[to] as int + amount as int) ==>
      Total(Transferred(m, from, to, amount)) == Total(m)
  {
    var before, after := Total(m), Total(Transferred(m, from, to, amount));
    var debit, credit := m[from] as int - amount as int, m[to] as int + amount as int;
    assert Sub(m[from], amount) == Wrap(debit) && Add(m[to], amount) == Wrap(credit);
    TransferredTotal(m, from, to, amount);
    ShiftedByWrapping(after, before, debit, credit);
  }

  /** A sum that differs from another only by what wrapping two terms added
      wraps to the same int, and equals it when neither term overflowed. */
  lemma ShiftedByWrapping(after: int, before: int, debit: int, credit: int)
    requires after == before + (Wrap(debit) as int - debit) + (Wrap(credit) as int - credit)
    ensures Wrap(after) == Wrap(before)
    ensures InRange(debit) && InRange(credit) ==> after == before
  {
    SumOfMultiples(Wrap(debit) as int - debit, Wrap(credit) as int - credit);
    WrapCongruent(after, before);
  }

  /** If `-a` and `-b` are multiples of 2^32, so is `a + b`. */
  lemma SumOfMultiples(a: int, b: int)
    requires (-a) % Modulus == 0 && (-b) % Modulus == 0
    ensures (a + b) % Modulus == 0
  {
    var p, q := (-a) / Modulus, (-b) / Modulus;
    assert a == -p * Modulus;
    assert b == -q * Modulus;
    ModShift(0, -p - q);
    assert a + b == 0 + (-p - q) * Modulus;
  }

  /** The first failure a transfer meets, given the ids present when it
      starts: a missing `from`, then a missing `to`, then a lock timeout on
      the smaller key, then on the larger, then a failed commit. */
  function TransferFailure(ids: set<Int32>, from: Int32, to: Int32, faults: Faults): (r: Option<Cause>)
    ensures r == None <==>
      from in ids && to in ids &&
      (forall k :: k in TransferLockOrder(from, to) ==> k !in faults.timedOut) &&
      !faults.commitFails
    ensures from !in ids ==> r == Some(NoAccount(from))
    ensures from in ids && to !in ids ==> r == Some(NoAccount(to))
    ensures r.Some? && r.value.LockTimeout? ==>
      from in ids && to in ids &&
      r.value.key in TransferLockOrder(from, to) && r.value.key in faults.timedOut &&
      (r.value.key == TransferLockOrder(from, to)[0] || TransferLockOrder(from, to)[0] !in faults.timedOut)
  {
    var order := TransferLockOrder(from, to);
    if from !in ids then Some(NoAccount(from))
    else if to !in ids then Some(NoAccount(to))
    else if order[0] in faults.timedOut then Some(LockTimeout(order[0]))
    else if order[1] in faults.timedOut then Some(LockTimeout(order[1]))
    else if faults.commitFails then Some(CommitFailed)
    else None
  }

  /** The keys a transfer asks to lock, in order: none when an account is
      missing, and otherwise the lock order up to and including the first
      key whose lock times out. */
  function LocksTaken(ids: set<Int32>, from: Int32, to: Int32, faults: Faults): (r: seq<Int32>)
    ensures r <= TransferLockOrder(from, to)
    ensures Ascending(r)
    ensures (from !in ids || to !in ids) <==> r == []
    ensures TransferFailure(ids, from, to, faults) == None ==> r == TransferLockOrder(from, to)
    ensures forall i :: 0 <= i < |r| - 1 ==> r[i] !in faults.timedOut
  {
    var order := TransferLockOrder(from, to);
    if from !in ids || to !in ids then []
    else if order[0] in faults.timedOut then order[..1]
    else order
  }

  /** One transfer request: `amount` from `from` to `to`. */
  datatype Transfer = Transfer(from: Int32, to: Int32, amount: Int32)

  /** The balances after a transfer commits, or unchanged when it is
      rejected for a missing account. */
  function AfterTransfer(m: Balances, t: Transfer): Balances {
    if t.from in m && t.to in m then Transferred(m, t.from, t.to, t.amount) else m
  }

  /** The balances after a series of transfers, one after another. */
  function AfterTransfers(m: Balances, ts: seq<Transfer>): Balances
    decreases |ts|
  {
    if ts == [] then m else AfterTransfers(AfterTransfer(m, ts[0]), ts[1..])
  }

  /** Any series of transfers keeps the set of accounts and the 32-bit sum of
      their balances. */
  lemma {:induction false} TransfersConserveTotal(m: Balances, ts: seq<Transfer>)
    ensures AfterTransfers(m, ts).Keys == m.Keys
    ensures Wrap(Total(AfterTransfers(m, ts))) == Wrap(Total(m))
    decreases |ts|
  {
    if ts != [] {
      var next := AfterTransfer(m, ts[0]);
      if ts[0].from in m && ts[0].to in m {
        TransferredBalances(m, ts[0].from, ts[0].to, ts[0].amount);
        TransferConservesTotal(m, ts[0].from, ts[0].to, ts[0].amount);
      }
      TransfersConserveTotal(next, ts[1..]);
    }
  }
}
