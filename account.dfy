/**
 The `Account` record the ledger stores: an id and a balance, both Java ints,
 mutable through its setters.
 */
module Accounts {
  import opened JavaInt

  class Account {
    var id: Int32
    var balance: Int32

    /** The constructor the serialization layer uses. */
    constructor (id: Int32, balance: Int32)
      ensures GetId() == id && GetBalance() == balance
    {
      this.id := id;
      this.balance := balance;
    }

    /** The no-argument constructor: both fields keep Java's default 0, which
        is also the default the wire schema declares for them. */
    constructor Default()
      ensures GetId() == 0 && GetBalance() == 0
    {
      id := 0;
      balance := 0;
    }

    function GetId(): Int32
      reads this
    {
      id
    }

    method SetId(id: Int32)
      modifies this
      ensures GetId() == id
      ensures GetBalance() == old(GetBalance())
    {
      this.id := id;
    }

    function GetBalance(): Int32
      reads this
    {
      balance
    }

    method SetBalance(balance: Int32)
      modifies this
      ensures GetBalance() == balance
      ensures GetId() == old(GetId())
    {
      this.balance := balance;
    }
  }
}
