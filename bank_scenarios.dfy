/**
 The scenarios of the bank's unit tests, replayed against DistributedBank.
 Each method's postconditions state what DistributedBank returns on the
 test's inputs; they are proved from the bank's contracts alone.

 The tests themselves build a different implementation (the base bank from
 BankFactory), not DistributedBank. For the two transfers to an unknown
 account they expect an IllegalArgumentException, while DistributedBank
 wraps that exception in a RuntimeException ("Transaction failed"): the
 postconditions below state the wrapped failure, so those two tests would
 not pass as written against DistributedBank.
 */
module BankScenarios {
  import opened JavaInt
  import opened Wrappers
  import opened Ledger
  import opened DistributedBanks

  /** How many accounts the test fixture opens. */
  const MaxAccounts: Int32 := 1000

  /** The accounts 0 to n - 1, all at 0. */
  function FreshBalances(n: Int32): (m: Balances)
    requires n >= 0
    ensures forall k: Int32 :: k in m <==> 0 <= k < n
    ensures forall k :: k in m ==> m[k] == 0
  {
    if n == 0 then map[] else FreshBalances(n - 1)[n - 1 := 0]
  }

  /** The fixture: a bank holding the accounts 0 to MaxAccounts - 1, all at 0. */
  method SetUp() returns (bank: DistributedBank)
    ensures fresh(bank) && fresh(bank.accounts.Values) && bank.Valid()
    ensures bank.Balances() == FreshBalances(MaxAccounts)
  {
    bank := new DistributedBank();
    var i: Int32 := 0;
    while i < MaxAccounts
      invariant 0 <= i <= MaxAccounts
      invariant fresh(bank) && fresh(bank.accounts.Values) && bank.Valid()
      invariant bank.Balances() == FreshBalances(i)
    {
      var created := bank.CreateAccount(i);
      assert created == Pass;
      i := i + 1;
    }
  }

  /** Asking for the balance of an account that was never opened fails. */
  method GetBalanceWrongAccount() returns (r: Result<Int32, BankError>)
    ensures r == Failure(AccountNotExisting(-1))
  {
    var bank := SetUp();
    r := bank.GetBalance(-1);
  }

  /** Accounts start at 0; after moving 100 from account 1 to account 2 they
      hold -100 and 100, and their sum is still 0. */
  method SimpleTransfer() returns (b1: Result<Int32, BankError>, b2: Result<Int32, BankError>)
    ensures b1 == Success(-100) && b2 == Success(100)
    ensures b1.value as int + b2.value as int == 0
  {
    var bank := SetUp();
    ghost var before := bank.Balances();
    assert 1 in before && 2 in before;
    assert TransferFailure(bank.accounts.Keys, 1, 2, NoFaults) == None;
    var t := bank.PerformTransfer(1, 2, 100, NoFaults);
    TransferredBalances(before, 1, 2, 100);
    b1 := bank.GetBalance(1);
    b2 := bank.GetBalance(2);
  }

  /** Opening an account twice fails the second time. */
  method CreateExistingAccount() returns (r: Outcome<BankError>, b: Result<Int32, BankError>)
    ensures r == Fail(AccountAlreadyExisting(1))
    ensures b == Success(0)
  {
    var bank := SetUp();
    r := bank.CreateAccount(1);
    b := bank.GetBalance(1);
  }

  /** A transfer from an unknown account fails with the wrapped cause, and
      the other account keeps its balance. */
  method TransferFromUnknownAccount() returns (r: Outcome<BankError>, b: Result<Int32, BankError>)
    ensures r == Fail(TransactionFailed(NoAccount(-1)))
    ensures b == Success(0)
  {
    var bank := SetUp();
    r := bank.PerformTransfer(-1, 2, 100, NoFaults);
    b := bank.GetBalance(2);
  }

  /** A transfer to an unknown account fails with the wrapped cause, and the
      other account keeps its balance. */
  method TransferToUnknownAccount() returns (r: Outcome<BankError>, b: Result<Int32, BankError>)
    ensures r == Fail(TransactionFailed(NoAccount(-1)))
    ensures b == Success(0)
  {
    var bank := SetUp();
    r := bank.PerformTransfer(1, -1, 100, NoFaults);
    b := bank.GetBalance(1);
  }

  /** A transfer whose commit fails is rolled back: both accounts keep their
      balances. */
  method TransferWithFailedCommit() returns (r: Outcome<BankError>, b1: Result<Int32, BankError>, b2: Result<Int32, BankError>)
    ensures r == Fail(TransactionFailed(CommitFailed))
    ensures b1 == Success(0) && b2 == Success(0)
  {
    var bank := SetUp();
    r := bank.PerformTransfer(1, 2, 100, Faults({}, true));
    b1 := bank.GetBalance(1);
    b2 := bank.GetBalance(2);
  }

  /** After clear, no account exists, so every balance lookup fails. */
  method ClearForgetsAccounts(id: Int32) returns (r: Result<Int32, BankError>)
    ensures r == Failure(AccountNotExisting(id))
  {
    var bank := SetUp();
    bank.Clear();
    r := bank.GetBalance(id);
  }
}
