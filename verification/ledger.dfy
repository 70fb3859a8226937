/**
 * The bank service's user store as an object: the store itself is a field the
 * request handlers update in place, and the PIN digest (SHA-256 in the
 * service) is a deterministic function fixed when the ledger is created.
 */
module Bank {
  import opened Store

  class Ledger {
    var accounts: Accounts
    const hash: string -> string

    ghost predicate Valid()
      reads this
    {
      WellKeyed(accounts)
    }

    /** Creates the store and fills it, entry by entry, with the initial users. */
    constructor (hash: string -> string)
      ensures Valid() && this.hash == hash
      ensures accounts == Seeded(map[], hash, InitialUsersData)
      ensures NonNegative(accounts)
    {
      this.hash := hash;
      accounts := map[];
      new;
      var i := 0;
      while i < |InitialUsersData|
        invariant 0 <= i <= |InitialUsersData|
        invariant accounts == Seeded(map[], hash, InitialUsersData[..i])
      {
        var e := InitialUsersData[i];
        assert InitialUsersData[..i + 1][..i] == InitialUsersData[..i];
        accounts := accounts[e.name := NewAccount(hash, e)];
        i := i + 1;
      }
      assert InitialUsersData[..i] == InitialUsersData;
      InitialStore(hash);
    }

    /** Checks a name and a PIN without changing anything.  An unknown name and a
        wrong PIN give the same refusal. */
    function Authenticate(name: string, pin: string): (r: Result<Profile>)
      reads this
      ensures r.Ok? <==> name in accounts && hash(pin) == accounts[name].hashedPin
      ensures r.Ok? ==> r.value == Profile(accounts[name].name, accounts[name].balance)
      ensures name !in accounts ==> r == Err(InvalidCredentials)
      ensures name in accounts && hash(pin) != accounts[name].hashedPin ==> r == Err(InvalidCredentials)
    {
      if name !in accounts then Err(InvalidCredentials)
      else
        var user := accounts[name];
        if hash(pin) != user.hashedPin then Err(InvalidCredentials)
        else Ok(Profile(user.name, user.balance))
    }

    /** Adds `amount` to the balance of `name`, refusing an unknown name first and
        then an amount that is not positive.  Anyone may deposit. */
    method Deposit(name: string, amount: real) returns (r: Result<real>)
      requires Valid()
      modifies this
      ensures Valid()
      ensures match Deposited(old(accounts), name, amount)
        case Ok(next) => accounts == next && r == Ok(next[name].balance)
        case Err(e) => accounts == old(accounts) && r == Err(e)
      ensures accounts == Apply(old(accounts), hash, DepositRequest(name, amount))
      ensures NonNegative(old(accounts)) ==> NonNegative(accounts)
    {
      if name !in accounts {
        return Err(UserNotFound);
      }
      var user := accounts[name];
      if amount <= 0.0 {
        return Err(NonPositiveDeposit);
      }
      accounts := accounts[name := user.(balance := user.balance + amount)];
      return Ok(accounts[name].balance);
    }

    /** Moves `amount` from `sender` to `recipient` once all six checks pass;
        otherwise reports the first check that fails and changes nothing. */
    method Transfer(sender: string, pin: string, recipient: string, amount: real)
      returns (r: Result<Receipt>)
      requires Valid()
      modifies this
      ensures Valid()
      ensures match Transferred(old(accounts), hash, sender, pin, recipient, amount)
        case Ok(next) =>
          accounts == next && r == Ok(Receipt(next[sender].balance, next[recipient].balance))
        case Err(e) => accounts == old(accounts) && r == Err(e)
      ensures accounts == Apply(old(accounts), hash, TransferRequest(sender, pin, recipient, amount))
      ensures NonNegative(old(accounts)) ==> NonNegative(accounts)
    {
      if sender !in accounts {
        return Err(SenderNotFound);
      }
      var from := accounts[sender];
      if recipient !in accounts {
        return Err(RecipientNotFound);
      }
      var to := accounts[recipient];
      if from.name == to.name {
        return Err(SelfTransfer);
      }
      if hash(pin) != from.hashedPin {
        return Err(InvalidPin);
      }
      if amount <= 0.0 {
        return Err(NonPositiveTransfer);
      }
      if from.balance < amount {
        return Err(InsufficientFunds);
      }
      accounts := accounts[sender := from.(balance := from.balance - amount)];
      accounts := accounts[recipient := to.(balance := to.balance + amount)];
      return Ok(Receipt(accounts[sender].balance, accounts[recipient].balance));
    }
  }

  /** The transfer's PIN check accepts exactly the PINs with which the sender could authenticate. */
  lemma PinCheckIsAuthentication(l: Ledger, sender: string, pin: string, recipient: string, amount: real)
    requires l.Valid() && sender in l.accounts && recipient in l.accounts && sender != recipient
    ensures TransferCheck(l.accounts, l.hash, sender, pin, recipient, amount) == Some(InvalidPin)
            <==> l.Authenticate(sender, pin).Err?
  {
  }
}
