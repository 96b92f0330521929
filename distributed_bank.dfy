/**
 The bank over a transactional, pessimistically locked cache of accounts.

 The cache is a map from account id to the `Account` object stored under it.
 A read hands the transaction the stored object itself, which the transfer
 then updates in place; a transaction that fails is rolled back to the
 snapshot taken before it changed anything.
 */
module DistributedBanks {
  import opened JavaInt
  import opened Wrappers
  import opened Accounts
  import opened LockOrder
  import opened Ledger

  class DistributedBank {
    /** The "accounts" cache. */
    var accounts: map<Int32, Account>
    /** The keys the latest transfer asked to lock, by reading them, in the
        order it asked; the last one may be a key whose lock timed out. */
    ghost var lockTrace: seq<Int32>

    /** Every account is stored under its own id. This also makes the stored
        objects distinct: updating one balance leaves every other one alone. */
    ghost predicate Valid()
      reads this`accounts, accounts.Values
    {
      forall k :: k in accounts ==> accounts[k].GetId() == k
    }

    /** The balances the cache holds, by id. */
    ghost function Balances(): Balances
      reads this`accounts, accounts.Values
    {
      map k | k in accounts :: accounts[k].GetBalance()
    }

    /** A bank whose cache holds no account yet. */
    constructor ()
      ensures Valid() && accounts == map[] && Balances() == map[] && lockTrace == []
    {
      accounts := map[];
      lockTrace := [];
    }

    /** Opens the account `id` with balance 0, unless `id` is taken. */
    method CreateAccount(id: Int32) returns (r: Outcome<BankError>)
      requires Valid()
      modifies this
      ensures Valid()
      ensures id in old(Balances()) ==>
        r == Fail(AccountAlreadyExisting(id)) && accounts == old(accounts) && Balances() == old(Balances())
      ensures id !in old(Balances()) ==>
        r == Pass && Balances() == old(Balances())[id := 0]
      ensures forall k :: k in old(accounts) ==> k in accounts && accounts[k] == old(accounts[k])
      ensures fresh(accounts.Values - old(accounts.Values))
      ensures lockTrace == old(lockTrace)
    {
      if id in accounts {
        return Fail(AccountAlreadyExisting(id));
      }
      var account := new Account(id, 0);
      accounts := accounts[id := account];
      return Pass;
    }

    /** The balance of account `id`, or an error when there is none. */
    method GetBalance(id: Int32) returns (r: Result<Int32, BankError>)
      requires Valid()
      ensures r.Success? <==> id in Balances()
      ensures r.Success? ==> r.value == Balances()[id]
      ensures r.Failure? ==> r.error == AccountNotExisting(id)
    {
      if id !in accounts {
        return Failure(AccountNotExisting(id));
      }
      return Success(accounts[id].GetBalance());
    }

    /** Moves `amount` from `from` to `to` in one transaction: both balances
        change or, on any failure, neither does. The two keys are read, which
        is where their locks are requested, smaller first whatever their
        roles. `faults` stands for what the cluster does meanwhile: which lock
        requests time out and whether the commit fails. */
    method PerformTransfer(from: Int32, to: Int32, amount: Int32, faults: Faults)
      returns (r: Outcome<BankError>)
      requires Valid()
      modifies this, accounts.Values
      ensures Valid()
      ensures accounts == old(accounts)
      ensures lockTrace == LocksTaken(old(accounts).Keys, from, to, faults)
      ensures TransferFailure(old(accounts).Keys, from, to, faults) == None ==>
        r == Pass && Balances() == Transferred(old(Balances()), from, to, amount)
      ensures TransferFailure(old(accounts).Keys, from, to, faults).Some? ==>
        r == Fail(TransactionFailed(TransferFailure(old(accounts).Keys, from, to, faults).value)) &&
        Balances() == old(Balances())
    {
      lockTrace := [];
      if from !in accounts {
        return Fail(TransactionFailed(NoAccount(from)));
      }
      if to !in accounts {
        return Fail(TransactionFailed(NoAccount(to)));
      }
      r := TransferExisting(from, to, amount, faults);
    }

    /** The transfer once both accounts are known to exist: lock both keys,
        then update and commit. */
    method TransferExisting(from: Int32, to: Int32, amount: Int32, faults: Faults)
      returns (r: Outcome<BankError>)
      requires Valid() && from in accounts && to in accounts
      modifies this`lockTrace, this`accounts, accounts.Values
      ensures Valid() && accounts == old(accounts)
      ensures lockTrace == LocksTaken(accounts.Keys, from, to, faults)
      ensures TransferFailure(accounts.Keys, from, to, faults) == None ==>
        r == Pass && Balances() == Transferred(old(Balances()), from, to, amount)
      ensures TransferFailure(accounts.Keys, from, to, faults).Some? ==>
        r == Fail(TransactionFailed(TransferFailure(accounts.Keys, from, to, faults).value)) &&
        Balances() == old(Balances())
    {
      ghost var start := Balances();
      var locked := LockBoth(from, to, faults);
      assert Balances() == start;
      if locked.Failure? {
        return Fail(TransactionFailed(LockTimeout(locked.error)));
      }
      var (fromAccount, toAccount) := locked.value;
      assert TransferFailure(accounts.Keys, from, to, faults) == if faults.commitFails then Some(CommitFailed) else None;
      r := UpdateAndCommit(from, to, fromAccount, toAccount, amount, faults.commitFails);
    }

    /** Reads the two keys, smaller first whatever their roles; each read is
        where that key's lock is requested. Gives back the objects stored
        under `from` and `to`, or the first key whose lock timed out. */
    method LockBoth(from: Int32, to: Int32, faults: Faults) returns (r: Result<(Account, Account), Int32>)
      requires from in accounts && to in accounts
      modifies this`lockTrace
      ensures lockTrace == LocksTaken(accounts.Keys, from, to, faults)
      ensures r.Success? <==> from !in faults.timedOut && to !in faults.timedOut
      ensures r.Success? ==> r.value == (accounts[from], accounts[to])
      ensures r.Failure? ==> TransferFailure(accounts.Keys, from, to, faults) == Some(LockTimeout(r.error))
    {
      var smaller, larger := if from < to then from else to, if from < to then to else from;
      lockTrace := [smaller];
      if smaller in faults.timedOut {
        return Failure(smaller);
      }
      var firstLock := accounts[smaller];
      lockTrace := [smaller, larger];
      if larger in faults.timedOut {
        return Failure(larger);
      }
      var secondLock := accounts[larger];
      return Success(if from < to then (firstLock, secondLock) else (secondLock, firstLock));
    }

    /** The rest of the transaction once both accounts are locked: update
        them, then commit, or roll back to the snapshot when the commit
        fails. */
    method UpdateAndCommit(from: Int32, to: Int32, fromAccount: Account, toAccount: Account,
                           amount: Int32, commitFails: bool)
      returns (r: Outcome<BankError>)
      requires Valid() && from in accounts && to in accounts
      requires accounts[from] == fromAccount && accounts[to] == toAccount
      modifies this`accounts, fromAccount, toAccount
      ensures Valid() && accounts == old(accounts)
      ensures !commitFails ==> r == Pass && Balances() == Transferred(old(Balances()), from, to, amount)
      ensures commitFails ==> r == Fail(TransactionFailed(CommitFailed)) && Balances() == old(Balances())
    {
      // The snapshot that rollback restores.
      ghost var before := Balances();
      var savedAccounts, savedFrom, savedTo := accounts, fromAccount.GetBalance(), toAccount.GetBalance();
      assert savedFrom == before[from] && savedTo == before[to];

      ApplyTransfer(from, to, fromAccount, toAccount, amount);
      if commitFails {
        Rollback(from, to, fromAccount, toAccount, savedAccounts, savedFrom, savedTo, amount, before);
        return Fail(TransactionFailed(CommitFailed));
      }
      return Pass;
    }

    /** The body of the transaction: debit `from`, credit `to` on the objects
        read from the cache, and put both back. */
    method ApplyTransfer(from: Int32, to: Int32, fromAccount: Account, toAccount: Account, amount: Int32)
      requires Valid() && from in accounts && to in accounts
      requires accounts[from] == fromAccount && accounts[to] == toAccount
      modifies this`accounts, fromAccount, toAccount
      ensures Valid() && accounts == old(accounts)
      ensures Balances() == Transferred(old(Balances()), from, to, amount)
    {
      ghost var before := Balances();
      SetStoredBalance(from, fromAccount, Sub(fromAccount.GetBalance(), amount));
      ghost var debited := Balances();
      assert toAccount.GetBalance() == debited[to];
      SetStoredBalance(to, toAccount, Add(toAccount.GetBalance(), amount));
      ghost var credited := Balances();
      assert credited == Transferred(before, from, to, amount);
      accounts := accounts[from := fromAccount][to := toAccount];
      assert accounts == old(accounts);
      assert Balances() == credited;
    }

    /** Rollback after a failed commit, standing for the transaction
        manager's rollback: the snapshot taken before the transaction changed
        anything is written back. */
    method Rollback(from: Int32, to: Int32, fromAccount: Account, toAccount: Account,
                    savedAccounts: map<Int32, Account>, savedFrom: Int32, savedTo: Int32,
                    ghost amount: Int32, ghost before: Balances)
      requires Valid() && accounts == savedAccounts && from in before && to in before
      requires from in accounts && to in accounts
      requires accounts[from] == fromAccount && accounts[to] == toAccount
      requires savedFrom == before[from] && savedTo == before[to]
      requires Balances() == Transferred(before, from, to, amount)
      modifies this`accounts, fromAccount, toAccount
      ensures Valid() && accounts == old(accounts)
      ensures Balances() == before
    {
      ghost var credited := Balances();
      SetStoredBalance(to, toAccount, savedTo);
      SetStoredBalance(from, fromAccount, savedFrom);
      assert Balances() == credited[to := before[to]][from := before[from]];
      accounts := savedAccounts;
      RollbackRestores(before, from, to, amount);
    }

    /** Sets, in place, the balance of the object stored under `id`. */
    method SetStoredBalance(id: Int32, account: Account, balance: Int32)
      requires Valid() && id in accounts && accounts[id] == account
      modifies account
      ensures Valid()
      ensures Balances() == old(Balances())[id := balance]
    {
      account.SetBalance(balance);
    }

    /** Empties the cache: afterwards no account exists. */
    method Clear()
      modifies this
      ensures Valid() && accounts == map[] && Balances() == map[]
      ensures lockTrace == old(lockTrace)
    {
      accounts := map[];
    }
  }
}
