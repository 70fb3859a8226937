# Bank ledger model

A Dafny model of the in-memory account ledger behind a small FastAPI bank
service (`main.py`). The service keeps a dictionary `users_db` from account name
to a `UserInDB` record (name, plaintext PIN, PIN digest, balance), fills it at
start-up with three accounts, and offers three requests: authenticate (name and
PIN, read-only), deposit (name and amount, no PIN), and bank transfer (sender,
sender PIN, recipient, amount) guarded by six ordered checks.

Two modules:

- `Store` (store.dfy) works on plain values. It holds the account record, the
  error kinds with the exact messages the service sends, and the effect of a
  deposit (`Deposited`) and of a transfer (`TransferCheck`, `Transferred`) as
  functions from the store before a request to the store after it or to an
  error. It also defines the total money in the store (`Total`), a sequence of
  requests handled one after the other (`Run`), and the seeding fold
  (`Seeded`). The lemmas prove conservation, non-negativity, the seeded contents
  and the example session of deposits and transfers.
- `Bank` (ledger.dfy) holds the class `Ledger`. Its field `accounts` is the
  store, and its methods update it in place as the handlers do. The constructor
  runs the seeding loop. `Authenticate` is a read-only function. `Deposit` and
  `Transfer` are methods whose postconditions tie the new store and the reply
  to the `Store` functions: a refused request leaves the store unchanged.

The PIN digest (`hashlib.sha256(...).hexdigest()`, FIPS 180-4) is an arbitrary
deterministic function `hash: string -> string`. It is fixed when the ledger is
created, and every `Store` function that checks a PIN takes it as a parameter.
Balances are `real`.

In these points the model follows `main.py` exactly:

- The record keeps the plaintext PIN (`pinNumber`) beside its digest.
- The self-transfer check (main.py:94) compares the two records' `name`
  fields, not the two request names. `WellKeyed` (every record is filed under its own name) holds
  after seeding and after every request. Under it, the two comparisons agree
  (`TransferCheck` states this).
- Each refusal carries the handler's own detail string ("User not found",
  "Invalid PIN for sender", ...), given by `Store.Message`.
- A successful deposit reports only the new balance. A successful transfer
  reports both new balances.
- The handlers take no locks.

## Model

| member | source | states |
|---|---|---|
| Store.Deposited | main.py:66-76 | an unknown name is refused with "User not found" before the amount is looked at; otherwise an amount `<= 0` is refused; it succeeds exactly when the name exists and the amount is positive, and then only that account's balance changes, by exactly `amount`, with the same keys, every other record unchanged, and well-keyedness and non-negativity kept |
| Store.MessagesDistinct | main.py:54-105 | each error kind maps to its own handler detail string (`Store.Message`), and no two kinds share one; both authentication failures give the same one |
| Store.DepositAddsToTotal | main.py:75 | a successful deposit raises the money in the whole store by exactly the amount |
| Store.TransferCheck | main.py:86-105 | each of the six errors is reported exactly when all earlier checks pass and its own check fails (sender missing, recipient missing, same account, wrong PIN digest, amount `<= 0`, balance below amount); no error exactly when all six pass; the same existing account named twice is always refused as a self-transfer whatever the PIN and amount |
| Store.Transferred | main.py:84-114 | fails exactly when a check fails, with that check's error; on success sender and recipient differ, the sender loses exactly `amount` and stays `>= 0`, the recipient gains exactly `amount`, their sum is unchanged, the keys and every other record are unchanged |
| Store.TransferConservesTotal | main.py:107-108 | a successful transfer leaves the money in the whole store unchanged |
| Store.Apply | main.py:66-114 | one deposit or transfer request, refused or not, keeps the set of accounts, well-keyedness and non-negative balances |
| Store.ApplyTotal | main.py:66-114 | one request changes the total by the amount of a deposit that succeeds, and by nothing otherwise |
| Store.RunTotal | main.py:66-114 | over any sequence of requests the total changes only by the deposits that succeed |
| Store.RunKeepsInvariants | main.py:66-114 | no sequence of requests adds or removes an account, breaks well-keyedness, or makes a non-negative store go negative |
| Store.RepeatedDeposits | main.py:75 | `n` successive deposits of `x > 0` into an existing account raise it by exactly `n * x` |
| Store.Seeded | main.py:33-40 | inserting the seed entries yields exactly the old keys plus the entries' names, and a store whose records are each filed under their own name stays so |
| Store.InitialStore | main.py:27-40 | seeding gives exactly `uzma`/5000, `ahmed`/3000 and `ali`/10000, each holding the digest of its PIN, all balances non-negative |
| Store.ExampleSession | main.py:27-114 | from the seeded store: uzma sends 1500 to ahmed (3500 / 4500), ahmed deposits 500 (5000), ahmed's transfer of 20000 to uzma is refused with insufficient funds |
| Bank.Ledger.constructor | main.py:27-40 | the loop leaves the store equal to the seeded store, well-keyed and non-negative |
| Bank.Ledger.Authenticate | main.py:50-60 | succeeds exactly when the name exists and the PIN's digest equals the stored one, and then reports the stored name and current balance; an unknown name and a wrong PIN give the identical `InvalidCredentials` result; reads the store only |
| Bank.Ledger.Deposit | main.py:66-76 | the new store and the reply are those of `Deposited`; a refused deposit changes nothing; well-keyedness and non-negative balances are kept |
| Bank.Ledger.Transfer | main.py:84-114 | the new store and the reply (both new balances) are those of `Transferred`; a refused transfer changes nothing; well-keyedness and non-negative balances are kept |
| Bank.PinCheckIsAuthentication | main.py:97-99 | between two distinct existing accounts, the transfer's PIN check refuses exactly the PINs with which authentication of the sender fails |

## Left out

- HTTP wiring is not modelled: the FastAPI app, the route decorators, the root
  endpoint `read_root` (main.py:42-44), and the pydantic request and response
  models. Requests are plain parameters. Errors are the `Error` datatype, not
  an `HTTPException` with status 400 or an `{"error": ...}` body.
- SHA-256 is not modelled. `hashlib` is a foreign library, so the digest is an
  arbitrary deterministic function given to the ledger. No property relies on
  its collision resistance.
- Floating point is not modelled. Balances and amounts are exact reals, so
  rounding is not captured. Neither are NaN and infinite amounts: a NaN amount
  passes both `<= 0` and `<` checks in the service.
- The `str(...)` and `float(...)` conversions of the seed data (main.py:34,
  main.py:39) are not modelled: seed PINs and balances are the resulting string
  and real constants.
- The truthiness test `if not user` is treated as a missing-key test. A
  `UserInDB` record is always truthy.
- In-place mutation of the shared record object is modelled as replacing the
  map entry. No other holder of a record exists, so no aliasing is lost.
- Concurrency is not modelled. The handlers never await, so each runs to
  completion, and each method body is one atomic step.
  Sequences of requests (`Store.Run`) are handled one after the other.
