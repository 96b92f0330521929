# Distributed bank ledger, modelled in Dafny

This project models the account ledger of the distributed bank
(`eu.tsp.transactions.distributed.DistributedBank`). The bank keeps accounts
in a transactional, pessimistically locked cache that maps account ids to
`Account` objects. It offers four operations:

- `createAccount` opens an account at balance 0, unless the id is taken.
- `getBalance` looks up a balance, or fails for an unknown id.
- `performTransfer` debits one account and credits another inside one
  transaction. It reads the two keys smaller first, whatever their from/to
  roles; the code's comment at DistributedBank.java:70 says that in
  pessimistic mode these reads are what take the locks. Any failure rolls
  the whole transaction back.
- `clear` empties the cache.

The model proves the following:

- what each operation does to the map of balances, its error cases included;
- the all-or-nothing behaviour of a transfer;
- the lock order a transfer follows;
- that a transfer conserves the sum of all balances (exactly, or modulo
  2^32 when Java's `int` arithmetic wraps);
- that transactions which lock in ascending key order cannot wait for each
  other in a cycle.

Files, one module each:

- `java_int.dfy` (`JavaInt`): Java's 32-bit `int` as a newtype, with the
  wrap-around of `+` and `-`.
- `wrappers.dfy` (`Wrappers`): `Option`, `Result` and `Outcome`. The model
  returns these where the source throws.
- `account.dfy` (`Accounts`): the mutable `Account` class.
- `lock_order.dfy` (`LockOrder`): a transfer's lock order and the no-wait-cycle
  argument.
- `ledger.dfy` (`Ledger`): the abstract map of balances, the errors, the
  effect of a transfer, the failure order, and conservation.
- `distributed_bank.dfy` (`DistributedBanks`): the `DistributedBank` class.
  `accounts` is a `map<Int32, Account>`. `lockTrace` is a ghost record of
  the keys the latest transfer asked to lock.
- `bank_scenarios.dfy` (`BankScenarios`): the unit-test scenarios replayed
  against `DistributedBank`, with what it returns stated as postconditions.
  The tests themselves build the base bank: `setup` calls
  `createBaseBank()` (BaseBankTest.java:18), which returns a `BaseBank`
  (BankFactory.java:11-12), not a `DistributedBank`. The two unknown-account
  tests expect an `IllegalArgumentException` (BaseBankTest.java:45, 51).
  `DistributedBank` wraps that exception in a `RuntimeException`
  (DistributedBank.java:97), so against it those two tests would fail; the
  scenarios state the wrapped failure.

The cache is a map of object references. A read returns the object stored
under the key, `setBalance` changes that object in place, and the two
`put` calls store the same objects again. The class invariant `Valid()` says
that every account is stored under its own id. So two keys never share an
object, and updating one balance leaves the others alone.

The cluster is modelled as a parameter, `Faults`. It lists the keys whose
lock request times out during the transfer and says whether the commit
fails. On such a failure the transfer writes back the snapshot it took
before changing anything, then reports `TransactionFailed(cause)`.

Three details of the code the model keeps:

- The code checks that both accounts exist only before it takes the locks
  (DistributedBank.java:64-67). It does not check again under the locks.
- A failed transfer does not surface as a plain "not found" error. The code
  wraps the cause in one `RuntimeException("Transaction failed", e)`
  (line 97). So the model reports `TransactionFailed(NoAccount(id))`, not
  `AccountNotExisting(id)`.
- A missing `from` is reported before a missing `to`.

`DistributedBank` imports `eu.tsp.transactions.Account`, which is not part of
this model. It is taken to have the same `{id, balance}` shape as
`io.github.gejsi.banking.Account`, which is modelled.

## Model

| member | source | states |
|---|---|---|
| `Accounts.Account.constructor` | src/main/java/io/github/gejsi/banking/Account.java:11-14 | `new Account(id, balance)` has `getId() == id` and `getBalance() == balance` |
| `Accounts.Account.Default` | src/main/java/io/github/gejsi/banking/Account.java:16-17 | the no-argument constructor gives id 0 and balance 0, Java's field defaults and the schema's `defaultValue = "0"` |
| `Accounts.Account.SetId` | src/main/java/io/github/gejsi/banking/Account.java:24-26 | afterwards `getId()` is the new id and the balance is unchanged |
| `Accounts.Account.SetBalance` | src/main/java/io/github/gejsi/banking/Account.java:33-35 | afterwards `getBalance()` is the new balance and the id is unchanged |
| `JavaInt.Wrap` | src/main/java/eu/tsp/transactions/distributed/DistributedBank.java:83-84 | the 32-bit result agrees with the exact value modulo 2^32, and equals it when the exact value fits in an int |
| `JavaInt.WrapCongruent` | src/main/java/eu/tsp/transactions/distributed/DistributedBank.java:83-84 | values that agree modulo 2^32 wrap to the same int |
| `JavaInt.SubThenAdd` | src/main/java/eu/tsp/transactions/distributed/DistributedBank.java:83-84 | `(b - a) + a == b` in wrapping int arithmetic, overflow or not |
| `DistributedBanks.DistributedBank.constructor` | src/main/java/eu/tsp/transactions/distributed/DistributedBank.java:24-40 | a new bank's cache holds no account and nothing has been locked |
| `DistributedBanks.DistributedBank.CreateAccount` | src/main/java/eu/tsp/transactions/distributed/DistributedBank.java:43-48 | a taken id fails with `AccountAlreadyExisting` and changes nothing; a fresh id adds exactly `id ↦ 0` in a new `Account(id, 0)`, and every other entry keeps its object and balance |
| `DistributedBanks.DistributedBank.GetBalance` | src/main/java/eu/tsp/transactions/distributed/DistributedBank.java:51-56 | succeeds exactly when the id is present and then returns its stored balance; otherwise fails with `AccountNotExisting(id)`; changes nothing |
| `DistributedBanks.DistributedBank.PerformTransfer` | src/main/java/eu/tsp/transactions/distributed/DistributedBank.java:59-99 | fails exactly when `TransferFailure` finds a cause, reports `TransactionFailed(cause)` and then leaves every balance as before; otherwise the balances become `Transferred(old, from, to, amount)`; the keys it asks to lock are `LocksTaken`, in ascending order; the cache keeps the same objects and the invariant |
| `DistributedBanks.DistributedBank.TransferExisting` | src/main/java/eu/tsp/transactions/distributed/DistributedBank.java:69-97 | once both accounts exist: a lock timeout or failed commit is reported as `TransactionFailed(cause)` and leaves every balance as before, otherwise the balances become `Transferred(old, from, to, amount)`; the keys asked to lock are `LocksTaken` |
| `DistributedBanks.DistributedBank.LockBoth` | src/main/java/eu/tsp/transactions/distributed/DistributedBank.java:69-81 | asks to lock the smaller key first, then the larger, stopping at the first timeout; succeeds exactly when neither key times out, and then hands back the objects stored under `from` and `to` in their roles |
| `DistributedBanks.DistributedBank.UpdateAndCommit` | src/main/java/eu/tsp/transactions/distributed/DistributedBank.java:83-97 | with both accounts locked: a committed transfer leaves `Transferred(old, from, to, amount)`, a failed commit is rolled back to the old balances and reported as `CommitFailed` |
| `DistributedBanks.DistributedBank.ApplyTransfer` | src/main/java/eu/tsp/transactions/distributed/DistributedBank.java:80-87 | debiting the `from` object in place, crediting the `to` object and putting both back turns the balances into `Transferred(old, from, to, amount)` |
| `DistributedBanks.DistributedBank.Rollback` | src/main/java/eu/tsp/transactions/distributed/DistributedBank.java:90-97 | writing back the snapshot taken before the update restores every balance |
| `DistributedBanks.DistributedBank.Clear` | src/main/java/eu/tsp/transactions/distributed/DistributedBank.java:102-104 | afterwards the cache is empty, so no account exists |
| `Ledger.TransferFailure` | src/main/java/eu/tsp/transactions/distributed/DistributedBank.java:64-78 | a transfer succeeds exactly when both accounts exist, neither lock times out and the commit succeeds; a missing `from` is reported first, then a missing `to`; a timeout is reported for the first locked key that timed out |
| `Ledger.LocksTaken` | src/main/java/eu/tsp/transactions/distributed/DistributedBank.java:69-78 | the keys the transfer asks to lock are a prefix of the ascending lock order: none when an account is missing, and both keys when the transfer succeeds |
| `Ledger.TransferredBalances` | src/main/java/eu/tsp/transactions/distributed/DistributedBank.java:80-87 | `from` ends at `old(from) - amount` and `to` at `old(to) + amount`, with no lower bound on either; every other account is unchanged; no account appears or disappears |
| `Ledger.RollbackRestores` | src/main/java/eu/tsp/transactions/distributed/DistributedBank.java:90-97 | writing back the two balances read before the update undoes the transfer completely |
| `Ledger.TransferConservesTotal` | src/main/java/eu/tsp/transactions/distributed/DistributedBank.java:83-84 | a transfer keeps the sum of all balances modulo 2^32, and the exact sum too when neither new balance overflows |
| `Ledger.TransferBetweenTwoConservesTotal` | src/main/java/eu/tsp/transactions/distributed/DistributedBank.java:83-84 | the same conservation for a transfer between two distinct accounts |
| `Ledger.TransferredTotal` | src/main/java/eu/tsp/transactions/distributed/DistributedBank.java:83-84 | the exact new sum is the old sum plus what wrap-around added to the two new balances |
| `Ledger.TransfersConserveTotal` | src/main/java/eu/tsp/transactions/distributed/DistributedBank.java:59-99 | any series of transfers keeps the set of accounts and the 32-bit sum of the balances |
| `Ledger.TotalRemove` | src/main/java/eu/tsp/transactions/distributed/DistributedBank.java:83-87 | the sum of the balances splits at any account |
| `Ledger.TotalUpdate` | src/main/java/eu/tsp/transactions/distributed/DistributedBank.java:83-87 | changing one balance changes the sum by the difference |
| `Ledger.TotalInsert` | src/main/java/eu/tsp/transactions/distributed/DistributedBank.java:47 | opening an account adds its balance (0 here) to the sum |
| `LockOrder.TransferLockOrder` | src/main/java/eu/tsp/transactions/distributed/DistributedBank.java:72-78 | a transfer locks its two keys in ascending order, and exactly those two |
| `LockOrder.LockOrderIgnoresRoles` | src/main/java/eu/tsp/transactions/distributed/DistributedBank.java:69-78 | the lock order does not depend on which key is `from` and which is `to` |
| `LockOrder.WaitRaisesKey` | src/main/java/eu/tsp/transactions/distributed/DistributedBank.java:69-70 | a transaction waiting for another one that locks in ascending order wants a smaller key than the key that one wants |
| `LockOrder.WantedIncreasesAlongCycle` | src/main/java/eu/tsp/transactions/distributed/DistributedBank.java:69-70 | along a chain of waiting transactions the wanted keys strictly increase |
| `LockOrder.NoWaitCycle` | src/main/java/eu/tsp/transactions/distributed/DistributedBank.java:69-70 | blocked transactions that each lock in ascending order never wait for one another in a cycle |
| `LockOrder.TransferWaiters` | src/main/java/eu/tsp/transactions/distributed/DistributedBank.java:72-78 | the waiter of each transfer follows that transfer's lock order |
| `LockOrder.TransfersCannotDeadlock` | src/main/java/eu/tsp/transactions/distributed/DistributedBank.java:69-78 | concurrent transfers blocked part-way through their locks form no wait-for cycle, whatever their roles |
| `LockOrder.RequestOrderCanDeadlock` | src/main/java/eu/tsp/transactions/distributed/DistributedBank.java:69 | if transfers locked `from` first, transfers 1→2 and 2→1 could each hold one key and wait for the other |
| `BankScenarios.FreshBalances` | src/test/java/io/github/gejsi/banking/base/BaseBankTest.java:19-21 | the fixture's balances: exactly the ids 0 to n - 1, each at 0 |
| `BankScenarios.SetUp` | src/test/java/io/github/gejsi/banking/base/BaseBankTest.java:15-22 | opening accounts 0 to 999 in a loop gives a bank holding exactly those, all at 0 |
| `BankScenarios.GetBalanceWrongAccount` | src/test/java/io/github/gejsi/banking/base/BaseBankTest.java:24-27 | the balance of account -1 cannot be read |
| `BankScenarios.SimpleTransfer` | src/test/java/io/github/gejsi/banking/base/BaseBankTest.java:29-37 | after moving 100 from 1 to 2, the balances are -100 and 100 and their sum is 0 |
| `BankScenarios.CreateExistingAccount` | src/test/java/io/github/gejsi/banking/base/BaseBankTest.java:39-43 | opening account 1 again fails and leaves its balance at 0 |
| `BankScenarios.TransferFromUnknownAccount` | src/test/java/io/github/gejsi/banking/base/BaseBankTest.java:45-49 | against `DistributedBank` a transfer from -1 fails with the wrapped `TransactionFailed(NoAccount(-1))`, not the bare `IllegalArgumentException` the test expects, and account 2 keeps 0 |
| `BankScenarios.TransferToUnknownAccount` | src/test/java/io/github/gejsi/banking/base/BaseBankTest.java:51-55 | against `DistributedBank` a transfer to -1 fails with the wrapped `TransactionFailed(NoAccount(-1))`, not the bare `IllegalArgumentException` the test expects, and account 1 keeps 0 |
| `BankScenarios.TransferWithFailedCommit` | src/main/java/eu/tsp/transactions/distributed/DistributedBank.java:89-97 | a transfer whose commit fails is rolled back, and both accounts keep 0 |
| `BankScenarios.ClearForgetsAccounts` | src/main/java/eu/tsp/transactions/distributed/DistributedBank.java:102-104 | after `clear`, looking up any id fails |

## Left out

- Cache and cluster setup (DistributedBank.java:25-39) is left out: the
  JGroups transport, `DIST_SYNC` replication, serialization and the 15-second
  lock-acquisition timeout are library configuration. The cache is a plain
  map. The constructor's empty cache holds for the first node of a fresh
  cluster; a node that joins a running `DIST_SYNC` cluster (lines 37-39)
  sees the entries already there.
- Real locking and concurrency are left out: blocking, timeouts as time, and
  threads racing. A lock timeout is an input (`Faults.timedOut`). Deadlock
  freedom is proved about the order of lock requests, not about running
  threads.
- No node is modelled for replication: a failed replication or commit is
  the input `Faults.commitFails`.
- The transaction manager is a foreign component. Its begin/commit, the
  status test before rollback, and the `printStackTrace` on a failed rollback
  (lines 60-62, 89-96) are reduced to one rule: a failure has no effect.
- The race between `containsKey` and `put` in `createAccount` (lines 44-47)
  is a concurrency matter and is not modelled.
- DistributedBanks.DistributedBank.PerformTransfer: a self-transfer
  (`from == to`) is modelled as the cache handing back its one stored
  object for both reads. The account is then debited and credited in
  place and keeps its balance. A cache that handed out two copies would
  instead leave `old + amount`. The source does not settle which.
- DistributedBanks.DistributedBank.Rollback: the write-back of the two saved
  balances stands for `tm.rollback()` (lines 92-93). The model reads the
  cache's `get` as handing out the stored object, which `setBalance` then
  changes in place. Under that reading `tm.rollback()` could not undo
  `setBalance` on the shared object. So all-or-nothing after a failed commit
  is assumed of the transaction manager, not derived from the code.
- DistributedBanks.DistributedBank.LockBoth: `lockTrace` records the two
  `get` calls (lines 73-77) as the lock points. The `put` calls at lines
  86-87 are not recorded as lock points. `LockOrder.TransfersCannotDeadlock`
  and the lock-order claims hold only if the comment at line 70 is true of
  the cache, namely that in pessimistic mode `get` takes the lock.
- `open` and `close` (lines 106-113) are lifecycle hooks with no ledger
  logic. They are not modelled.
- The schema builders, `BankFactory` and the `Bank` interface carry no
  behaviour and are not modelled. `Bank` only fixed the operation shapes.
- Exception messages ("account already existing: " and so on) are not
  modelled. Each error carries its kind and the account id instead.
