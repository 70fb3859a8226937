/**
 * The account store of the bank service as plain values: the account record,
 * the errors the request handlers report, and the effect of a deposit and of a
 * transfer on the whole store, stated as functions from the store before the
 * request to the store after it.  The class in ledger.dfy runs these effects in
 * place and is specified by them.
 */
module Store {

  /** One entry of the user store: a `UserInDB` record.  `pinNumber` is the
      plaintext PIN the record keeps beside its digest; no check reads it. */
  datatype Account = Account(name: string, pinNumber: string, hashedPin: string, balance: real)

  /** The user store: account name to account record. */
  type Accounts = map<string, Account>

  /** What a successful authentication reports. */
  datatype Profile = Profile(name: string, balance: real)

  /** What a successful transfer reports. */
  datatype Receipt = Receipt(senderNewBalance: real, recipientNewBalance: real)

  /** Every way a request can be refused; `Message` gives the text the service sends. */
  datatype Error =
    | InvalidCredentials
    | UserNotFound
    | NonPositiveDeposit
    | SenderNotFound
    | RecipientNotFound
    | SelfTransfer
    | InvalidPin
    | NonPositiveTransfer
    | InsufficientFunds

  function Message(e: Error): (m: string)
  {
    match e
    case InvalidCredentials => "Invalid Credentials"
    case UserNotFound => "User not found"
    case NonPositiveDeposit => "Deposit amount must be positive"
    case SenderNotFound => "Sender not found"
    case RecipientNotFound => "Recipient not found"
    case SelfTransfer => "Cannot transfer to yourself"
    case InvalidPin => "Invalid PIN for sender"
    case NonPositiveTransfer => "Transfer amount must be positive"
    case InsufficientFunds => "Insufficient funds"
  }

  /** The detail string identifies the error kind: no two kinds share one. */
  lemma MessagesDistinct(e1: Error, e2: Error)
    ensures Message(e1) == Message(e2) <==> e1 == e2
  {
  }

  datatype Option<T> = None | Some(value: T)

  datatype Result<T> = Ok(value: T) | Err(error: Error)

  /** Each record is filed under its own name. */
  ghost predicate WellKeyed(db: Accounts)
  {
    forall k :: k in db ==> db[k].name == k
  }

  ghost predicate NonNegative(db: Accounts)
  {
    forall k :: k in db ==> db[k].balance >= 0.0
  }

  /** The money held by the whole store. */
  ghost function Total(db: Accounts): (t: real)
    decreases |db|
  {
    if db.Keys == {} then 0.0
    else
      var k :| k in db.Keys;
      db[k].balance + Total(db - {k})
  }

  lemma {:induction false} TotalRemove(db: Accounts, k: string)
    requires k in db
    ensures Total(db) == db[k].balance + Total(db - {k})
    decreases |db|
  {
    var j :| j in db.Keys && Total(db) == db[j].balance + Total(db - {j});
    if j != k {
      TotalRemove(db - {j}, k);
      TotalRemove(db - {k}, j);
      assert db - {j} - {k} == db - {k} - {j};
    }
  }

  /** Replacing one record changes the total by exactly the change in that record's balance. */
  lemma TotalUpdate(db: Accounts, k: string, a: Account)
    requires k in db
    ensures Total(db[k := a]) == Total(db) - db[k].balance + a.balance
  {
    TotalRemove(db, k);
    TotalRemove(db[k := a], k);
    assert db[k := a] - {k} == db - {k};
  }

  // ---------------------------------------------------------------------------
  // Deposit

  /** The effect of a deposit request: the new store, or the error that refuses it. */
  function Deposited(db: Accounts, name: string, amount: real): (r: Result<Accounts>)
    ensures name !in db ==> r == Err(UserNotFound)
    ensures name in db && amount <= 0.0 ==> r == Err(NonPositiveDeposit)
    ensures r.Ok? <==> name in db && amount > 0.0
    ensures r.Ok? ==> r.value.Keys == db.Keys
    ensures r.Ok? ==> r.value[name].balance == db[name].balance + amount
    ensures r.Ok? ==> r.value[name] == db[name].(balance := r.value[name].balance)
    ensures r.Ok? ==> forall k :: k in db && k != name ==> r.value[k] == db[k]
    ensures r.Ok? && WellKeyed(db) ==> WellKeyed(r.value)
    ensures r.Ok? && NonNegative(db) ==> NonNegative(r.value)
  {
    if name !in db then Err(UserNotFound)
    else if amount <= 0.0 then Err(NonPositiveDeposit)
    else
      var user := db[name];
      Ok(db[name := user.(balance := user.balance + amount)])
  }

  /** A successful deposit adds exactly its amount to the money in the store. */
  lemma DepositAddsToTotal(db: Accounts, name: string, amount: real)
    requires Deposited(db, name, amount).Ok?
    ensures Total(Deposited(db, name, amount).value) == Total(db) + amount
  {
    TotalUpdate(db, name, db[name].(balance := db[name].balance + amount));
  }

  // ---------------------------------------------------------------------------
  // Transfer

  /** The six checks of a transfer request in their order: the error of the
      first check that fails, or None when all pass. */
  function TransferCheck(db: Accounts, hash: string -> string, sender: string, pin: string,
                         recipient: string, amount: real): (r: Option<Error>)
    ensures r == Some(SenderNotFound) <==> sender !in db
    ensures r == Some(RecipientNotFound) <==> sender in db && recipient !in db
    ensures r == Some(SelfTransfer) <==>
      sender in db && recipient in db && db[sender].name == db[recipient].name
    ensures r == Some(InvalidPin) <==>
      sender in db && recipient in db && db[sender].name != db[recipient].name
      && hash(pin) != db[sender].hashedPin
    ensures r == Some(NonPositiveTransfer) <==>
      sender in db && recipient in db && db[sender].name != db[recipient].name
      && hash(pin) == db[sender].hashedPin && amount <= 0.0
    ensures r == Some(InsufficientFunds) <==>
      sender in db && recipient in db && db[sender].name != db[recipient].name
      && hash(pin) == db[sender].hashedPin && amount > 0.0 && db[sender].balance < amount
    ensures r.None? <==>
      sender in db && recipient in db && db[sender].name != db[recipient].name
      && hash(pin) == db[sender].hashedPin && 0.0 < amount <= db[sender].balance
    // naming one existing account twice is refused whatever the PIN and the amount
    ensures sender in db && sender == recipient ==> r == Some(SelfTransfer)
    // with every record filed under its own name, the name comparison is the key comparison
    ensures WellKeyed(db) && sender in db && recipient in db ==>
      (r == Some(SelfTransfer) <==> sender == recipient)
  {
    if sender !in db then Some(SenderNotFound)
    else if recipient !in db then Some(RecipientNotFound)
    else if db[sender].name == db[recipient].name then Some(SelfTransfer)
    else if hash(pin) != db[sender].hashedPin then Some(InvalidPin)
    else if amount <= 0.0 then Some(NonPositiveTransfer)
    else if db[sender].balance < amount then Some(InsufficientFunds)
    else None
  }

  /** The effect of a transfer request: the new store, or the error of the first failing check. */
  function Transferred(db: Accounts, hash: string -> string, sender: string, pin: string,
                       recipient: string, amount: real): (r: Result<Accounts>)
    ensures r.Err? <==> TransferCheck(db, hash, sender, pin, recipient, amount).Some?
    ensures r.Err? ==> r.error == TransferCheck(db, hash, sender, pin, recipient, amount).value
    ensures r.Ok? ==> sender in db && recipient in db && sender != recipient
    ensures r.Ok? ==> r.value.Keys == db.Keys
    ensures r.Ok? ==> r.value[sender].balance == db[sender].balance - amount
    ensures r.Ok? ==> r.value[recipient].balance == db[recipient].balance + amount
    ensures r.Ok? ==> r.value[sender].balance + r.value[recipient].balance
                      == db[sender].balance + db[recipient].balance
    ensures r.Ok? ==> r.value[sender].balance >= 0.0
    ensures r.Ok? ==> r.value[sender] == db[sender].(balance := r.value[sender].balance)
    ensures r.Ok? ==> r.value[recipient] == db[recipient].(balance := r.value[recipient].balance)
    ensures r.Ok? ==> forall k :: k in db && k != sender && k != recipient ==> r.value[k] == db[k]
    ensures r.Ok? && WellKeyed(db) ==> WellKeyed(r.value)
    ensures r.Ok? && NonNegative(db) ==> NonNegative(r.value)
  {
    match TransferCheck(db, hash, sender, pin, recipient, amount)
    case Some(e) => Err(e)
    case None =>
      var from := db[sender];
      var to := db[recipient];
      Ok(db[sender := from.(balance := from.balance - amount)]
           [recipient := to.(balance := to.balance + amount)])
  }

  /** A successful transfer moves money between two accounts and leaves the total unchanged. */
  lemma TransferConservesTotal(db: Accounts, hash: string -> string, sender: string, pin: string,
                               recipient: string, amount: real)
    requires Transferred(db, hash, sender, pin, recipient, amount).Ok?
    ensures Total(Transferred(db, hash, sender, pin, recipient, amount).value) == Total(db)
  {
    var from := db[sender];
    var to := db[recipient];
    var debited := db[sender := from.(balance := from.balance - amount)];
    TotalUpdate(db, sender, from.(balance := from.balance - amount));
    TotalUpdate(debited, recipient, to.(balance := to.balance + amount));
  }

  // ---------------------------------------------------------------------------
  // A sequence of requests handled one after the other

  datatype Request =
    | DepositRequest(name: string, amount: real)
    | TransferRequest(senderName: string, senderPin: string, recipientName: string, amount: real)

  /** The store after one request; a refused request leaves it as it was. */
  function Apply(db: Accounts, hash: string -> string, req: Request): (r: Accounts)
    ensures r.Keys == db.Keys
    ensures WellKeyed(db) ==> WellKeyed(r)
    ensures NonNegative(db) ==> NonNegative(r)
  {
    match req
    case DepositRequest(name, amount) =>
      (match Deposited(db, name, amount) case Ok(next) => next case Err(_) => db)
    case TransferRequest(sender, pin, recipient, amount) =>
      (match Transferred(db, hash, sender, pin, recipient, amount) case Ok(next) => next case Err(_) => db)
  }

  /** The money a request brings into the store: the amount of a deposit that succeeds, else nothing. */
  function Credit(db: Accounts, req: Request): (c: real)
  {
    match req
    case DepositRequest(name, amount) => if Deposited(db, name, amount).Ok? then amount else 0.0
    case TransferRequest(_, _, _, _) => 0.0
  }

  function Run(db: Accounts, hash: string -> string, reqs: seq<Request>): (r: Accounts)
    decreases |reqs|
  {
    if reqs == [] then db else Run(Apply(db, hash, reqs[0]), hash, reqs[1..])
  }

  /** The money the deposits among `reqs` bring in, in the order they are handled. */
  function Deposits(db: Accounts, hash: string -> string, reqs: seq<Request>): (d: real)
    decreases |reqs|
  {
    if reqs == [] then 0.0
    else Credit(db, reqs[0]) + Deposits(Apply(db, hash, reqs[0]), hash, reqs[1..])
  }

  lemma ApplyTotal(db: Accounts, hash: string -> string, req: Request)
    ensures Total(Apply(db, hash, req)) == Total(db) + Credit(db, req)
  {
    match req
    case DepositRequest(name, amount) =>
      if Deposited(db, name, amount).Ok? { DepositAddsToTotal(db, name, amount); }
    case TransferRequest(sender, pin, recipient, amount) =>
      if Transferred(db, hash, sender, pin, recipient, amount).Ok? {
        TransferConservesTotal(db, hash, sender, pin, recipient, amount);
      }
  }

  /** Over any sequence of requests the money in the store changes only by the deposits. */
  lemma {:induction false} RunTotal(db: Accounts, hash: string -> string, reqs: seq<Request>)
    ensures Total(Run(db, hash, reqs)) == Total(db) + Deposits(db, hash, reqs)
    decreases |reqs|
  {
    if reqs != [] {
      ApplyTotal(db, hash, reqs[0]);
      RunTotal(Apply(db, hash, reqs[0]), hash, reqs[1..]);
    }
  }

  /** No sequence of requests makes a balance negative, and none adds or removes an account. */
  lemma {:induction false} RunKeepsInvariants(db: Accounts, hash: string -> string, reqs: seq<Request>)
    ensures Run(db, hash, reqs).Keys == db.Keys
    ensures NonNegative(db) ==> NonNegative(Run(db, hash, reqs))
    ensures WellKeyed(db) ==> WellKeyed(Run(db, hash, reqs))
    decreases |reqs|
  {
    if reqs != [] {
      RunKeepsInvariants(Apply(db, hash, reqs[0]), hash, reqs[1..]);
    }
  }

  lemma OneMore(n: nat, x: real)
    ensures ((n + 1) as real) * x == (n as real) * x + x
  {
  }

  function Repeated(req: Request, n: nat): (r: seq<Request>)
  {
    if n == 0 then [] else [req] + Repeated(req, n - 1)
  }

  /** `n` deposits of `x` into one account raise it by exactly `n * x`: none is lost. */
  lemma {:induction false} RepeatedDeposits(db: Accounts, hash: string -> string, name: string, x: real, n: nat)
    requires name in db && x > 0.0
    ensures name in Run(db, hash, Repeated(DepositRequest(name, x), n))
    ensures Run(db, hash, Repeated(DepositRequest(name, x), n))[name].balance
            == db[name].balance + (n as real) * x
  {
    var req := DepositRequest(name, x);
    if n > 0 {
      var next := Apply(db, hash, req);
      assert next[name].balance == db[name].balance + x;
      RepeatedDeposits(next, hash, name, x, n - 1);
      var reqs := Repeated(req, n);
      assert reqs[0] == req && reqs[1..] == Repeated(req, n - 1);
      assert Run(db, hash, reqs) == Run(next, hash, Repeated(req, n - 1));
      OneMore(n - 1, x);
    }
  }

  // ---------------------------------------------------------------------------
  // Seeding

  datatype SeedEntry = SeedEntry(name: string, pin: string, balance: real)

  /** The three accounts the service starts with. */
  const InitialUsersData: seq<SeedEntry> := [
    SeedEntry("uzma", "1234", 5000.0),
    SeedEntry("ahmed", "1111", 3000.0),
    SeedEntry("ali", "2222", 10000.0)
  ]

  function NewAccount(hash: string -> string, e: SeedEntry): (a: Account)
  {
    Account(e.name, e.pin, hash(e.pin), e.balance)
  }

  /** The store after inserting each entry in turn; a later entry replaces an earlier one of the same name. */
  function Seeded(db: Accounts, hash: string -> string, entries: seq<SeedEntry>): (r: Accounts)
    ensures r.Keys == db.Keys + set e | e in entries :: e.name
    ensures WellKeyed(db) ==> WellKeyed(r)
    decreases |entries|
  {
    if entries == [] then db
    else
      var last := entries[|entries| - 1];
      Seeded(db, hash, entries[..|entries| - 1])[last.name := NewAccount(hash, last)]
  }

  /** Seeding an empty store gives exactly the three listed accounts, each with the digest of its PIN. */
  lemma InitialStore(hash: string -> string)
    ensures Seeded(map[], hash, InitialUsersData) == map[
      "uzma" := Account("uzma", "1234", hash("1234"), 5000.0),
      "ahmed" := Account("ahmed", "1111", hash("1111"), 3000.0),
      "ali" := Account("ali", "2222", hash("2222"), 10000.0)]
    ensures WellKeyed(Seeded(map[], hash, InitialUsersData))
    ensures NonNegative(Seeded(map[], hash, InitialUsersData))
  {
  }

  /** A session on the initial store: uzma sends 1500 to ahmed, ahmed deposits 500,
      then ahmed tries to send 20000 to uzma and is refused for lack of funds. */
  lemma ExampleSession(hash: string -> string)
    ensures var db0 := Seeded(map[], hash, InitialUsersData);
      && Transferred(db0, hash, "uzma", "1234", "ahmed", 1500.0).Ok?
      && var db1 := Transferred(db0, hash, "uzma", "1234", "ahmed", 1500.0).value;
      && db1["uzma"].balance == 3500.0 && db1["ahmed"].balance == 4500.0
      && Deposited(db1, "ahmed", 500.0).Ok?
      && var db2 := Deposited(db1, "ahmed", 500.0).value;
      && db2["ahmed"].balance == 5000.0
      && Transferred(db2, hash, "ahmed", "1111", "uzma", 20000.0) == Err(InsufficientFunds)
      && db2["uzma"].balance == 3500.0
  {
    InitialStore(hash);
  }
}
