# Record program and pool backend, modelled in Dafny

This project models the three pieces of sequential logic of a Solana
full-stack application:

- **The on-chain record program** (`RecordProgram`, `record_program.dfy`): a
  `RecordAccount` with a counter and a vector of `Record`s, and the
  instructions `initialize`, `create_record` and `update_record` with the
  error codes `InvalidRecordIndex` and `UnauthorizedAccess`. The invariant
  `count == |records|` is proved to hold after any sequence of
  instructions, and so is the ownership property: no instruction changes a
  record's author, and a record stays exactly as it was unless its author
  signs an update.
- **The database service** (`Stores`, `SpinHistory`, `DatabaseService`): the
  PostgreSQL tables `users` and `transactions` as a map and a sequence, the
  MongoDB collections of pools and spins as a map and a sequence, and the
  operations `updateUserPoints`, `updatePoolMetadata`,
  `recordSpinWheelResult`, `getPoolMetadata` and `getUserSpinHistory`. The
  table constraints (NOT NULL signature and type, UNIQUE signature, the
  foreign key to `users`) become `Err` results; a failed
  `updateUserPoints` returns no ledger, which is its ROLLBACK. The history
  query is given both as a specification (`IsHistoryAnswer`: newest first,
  drawn from the matching spins, `min(50, matches)` of them, none left out
  newer than one returned) and as a filter–sort–limit function proved to
  meet it.
- **The pool request handlers** (`PoolController`): `updateUserPoolData`,
  `getPoolMetadata` and `getUserSpinHistory` as pure functions from the
  request and the store contents to a status code and the new contents.
  Validation precedes every store access; the three writes run in order;
  the first that throws ends the request with 500 and the earlier writes
  stay in place.

The clock and the stores' availability are parameters: every store call
takes an `unavailable` flag standing for a failure that does not come from
the data (lost connection, timeout), and each handler call takes the clock
reading `now`.

Two behaviours of the code are worth knowing, and the model follows the
code on both:

- The handler passes the request-level `transactionSignature` into the spin
  record after spreading the spin payload, so the payload's own signature is
  always overridden. A request that carries a signature therefore records a
  `completed` spin, not a `pending` one (`WorkedRequest`).
- A request without a signature always fails with 500 and writes nothing,
  because the NOT NULL `signature` column rejects the ledger row before the
  other writes are reached (`MissingSignatureFails`). So a spin recorded
  through the handler is `pending` only when the signature is the empty
  string (`PendingSpinNeedsEmptySignature`).

## Model

| member | source | states |
|---|---|---|
| RecordProgram.Initialize | solana-fullstack/contracts/programs/my_smart_contract/src/lib.rs:9-13 | the counter becomes 0 and the records are untouched, so the account is valid exactly when its vector is empty |
| RecordProgram.InitializeEstablishesValid | solana-fullstack/contracts/programs/my_smart_contract/src/lib.rs:55-61 | on the zero-filled account `init` allocates, `initialize` establishes `count == |records|` with no records |
| RecordProgram.CreateRecord | solana-fullstack/contracts/programs/my_smart_contract/src/lib.rs:15-29 | one record is appended at the end with the signer as author, the given data and the clock reading; earlier records are unchanged; the counter grows by one |
| RecordProgram.CreateRecordPreservesValid | solana-fullstack/contracts/programs/my_smart_contract/src/lib.rs:26-27 | `create_record` preserves `count == |records|` |
| RecordProgram.UpdateRecord | solana-fullstack/contracts/programs/my_smart_contract/src/lib.rs:32-51 | index at or past the counter fails with InvalidRecordIndex whatever the author; otherwise a foreign signer fails with UnauthorizedAccess; success exactly when both checks pass, and then only data and timestamp of that record change |
| RecordProgram.UpdateRecordPreservesValid | solana-fullstack/contracts/programs/my_smart_contract/src/lib.rs:36-48 | on a valid account `update_record` keeps the invariant and never reaches the out-of-bounds panic |
| RecordProgram.RunPreservesValid | solana-fullstack/contracts/programs/my_smart_contract/src/lib.rs:81-85 | `count == |records|` holds after any sequence of create and update instructions |
| RecordProgram.RunKeepsAuthors | solana-fullstack/contracts/programs/my_smart_contract/src/lib.rs:41-48 | no sequence of instructions removes a record or changes its author |
| RecordProgram.OnlyAuthorEdits | solana-fullstack/contracts/programs/my_smart_contract/src/lib.rs:42-45 | a record is left exactly as it was by any sequence of instructions none of which its author signed |
| DatabaseService.CreditUser | solana-fullstack/backend/src/services/database.service.ts:53-64 | an existing wallet's balance grows by the delta, an unseen wallet gets a row with the delta, other users are unchanged |
| DatabaseService.InsertTransaction | solana-fullstack/backend/src/config/db.ts:49-60 | the row is appended exactly when signature and type are present, the signature is unused and the wallet has a user row |
| DatabaseService.UpdateUserPoints | solana-fullstack/backend/src/services/database.service.ts:39-83 | success exactly when the store is up, signature and type are present and the signature is unused; then the balance update and exactly one `completed` row with the delta and `amount or 0`, appended after the unchanged old rows |
| DatabaseService.UpdateUserPointsPreservesLedgerValid | solana-fullstack/backend/src/config/db.ts:52-59 | a committed update keeps signatures unique and every transaction's wallet in `users` |
| DatabaseService.DuplicateSignatureRejected | solana-fullstack/backend/src/config/db.ts:52 | resubmitting a recorded signature fails with a UNIQUE violation, so the ledger keeps only the first write |
| DatabaseService.PointsAreAdditive | solana-fullstack/backend/src/services/database.service.ts:53-64 | two committed updates of one wallet add both deltas to its previous balance (0 for a new wallet) |
| DatabaseService.UpdatePoolMetadata | solana-fullstack/backend/src/services/database.service.ts:85-115 | an existing pool gets both counters incremented by the deltas (default 0) and its metadata replaced, name, dates and status unchanged; an unseen pool is created as `Pool <id>`, active, counters equal to the deltas, window of 30 days from the clock reading |
| DatabaseService.UpdatePoolMetadataKeepsKeys | solana-fullstack/backend/src/services/database.service.ts:92-93 | the upsert keeps every pool document under its own id |
| DatabaseService.PoolUpsertsAccumulate | solana-fullstack/backend/src/services/database.service.ts:95-99 | two upserts of one pool equal one upsert with the summed deltas and the last metadata |
| DatabaseService.RecordSpinWheelResult | solana-fullstack/backend/src/services/database.service.ts:117-136 | success exactly when the store is up and wallet, pool and points pass the required-path validation; then one spin appended, `completed` exactly when the signature is truthy and `pending` otherwise |
| DatabaseService.SpinsAreNotDeduplicated | solana-fullstack/backend/src/services/database.service.ts:119-129 | recording the same spin twice stores two equal documents |
| DatabaseService.GetPoolMetadata | solana-fullstack/backend/src/services/database.service.ts:138-146 | returns the stored document exactly when the pool is known |
| DatabaseService.ReadAfterUpsert | solana-fullstack/backend/src/services/database.service.ts:92-95 | reading a pool after a committed upsert finds it, carrying the upsert's metadata |
| DatabaseService.GetUserSpinHistory | solana-fullstack/backend/src/services/database.service.ts:148-164 | returns a history answer for the wallet, filtered by pool when the pool argument is truthy |
| SpinHistory.Filter | solana-fullstack/backend/src/services/database.service.ts:150-155 | keeps each matching spin as often as it is stored and nothing else |
| SpinHistory.SortNewestFirst | solana-fullstack/backend/src/services/database.service.ts:156 | the result is a permutation of the input with timestamps non-increasing |
| SpinHistory.History | solana-fullstack/backend/src/services/database.service.ts:150-157 | the result is newest first, a sub-multiset of the matching spins, `min(50, matches)` long, and no matching spin left out is newer than one returned |
| SpinHistory.HistoryIsCompleteUnderLimit | solana-fullstack/backend/src/services/database.service.ts:157 | with at most fifty matching spins the query returns each of them as often as it is stored |
| PoolController.UpdateUserPoolData | solana-fullstack/backend/src/controllers/poolController.ts:6-69 | 400 with the store untouched exactly when a required field is missing (a delta of 0 passes); 200 exactly when every attempted write succeeds; otherwise 500 |
| PoolController.LedgerWrittenFirst | solana-fullstack/backend/src/controllers/poolController.ts:28-35 | the ledger is written first with the request's fields; if that write fails nothing changes |
| PoolController.PoolWrittenOnlyWithMetadata | solana-fullstack/backend/src/controllers/poolController.ts:38-45 | pools change only when metadata is present and the ledger write committed, by one upsert with participant delta 1 and the request's points delta |
| PoolController.SpinCarriesRequestSignature | solana-fullstack/backend/src/controllers/poolController.ts:48-55 | at most one spin, only with a payload and a 200 reply, and exactly one on every 200 reply to a request with a payload; its result is the payload's points, multiplier and reward; it carries the request's signature, the payload's wallet and pool when present, and is `completed` exactly when the request's signature is truthy |
| PoolController.PartialFailureKeepsLedgerWrite | solana-fullstack/backend/src/controllers/poolController.ts:27-68 | when the ledger write commits and the pool write throws, the reply is 500 with the ledger write kept and no spin recorded |
| PoolController.MissingSignatureFails | solana-fullstack/backend/src/controllers/poolController.ts:28-35 | a valid request without a signature gets 500 and writes nothing |
| PoolController.PendingSpinNeedsEmptySignature | solana-fullstack/backend/src/controllers/poolController.ts:48-55 | a spin recorded through the handler is `pending` only when the request's signature is the empty string |
| PoolController.UpdateUserPoolDataPreservesLedgerValid | solana-fullstack/backend/src/controllers/poolController.ts:28-35 | the handler keeps the ledger's UNIQUE and FOREIGN KEY constraints |
| PoolController.WorkedRequest | solana-fullstack/backend/src/controllers/poolController.ts:48-53 | wallet W1, pool P1, delta 10, signature S1: balance 10, one row S1, one participant and 10 points for P1, and a `completed` spin for W1/P1 |
| PoolController.GetPoolMetadata | solana-fullstack/backend/src/controllers/poolController.ts:71-103 | 400 without a pool id, 500 when the store fails, 404 for an unknown pool, otherwise 200 with the stored document |
| PoolController.MetadataVisibleAfterUpdate | solana-fullstack/backend/src/controllers/poolController.ts:84-94 | after a 200 update that carried metadata, reading that pool answers 200 with the same metadata |
| PoolController.GetUserSpinHistory | solana-fullstack/backend/src/controllers/poolController.ts:105-134 | 400 without a wallet, 500 when the store fails, otherwise 200 with a history answer of at most fifty spins |

## Left out

- Clocks: `Clock::get`, `new Date()` and `Date.now()` are a clock parameter. `updatePoolMetadata` reads the clock twice (start date and end date); the model uses one reading for both. Likewise one reading per request serves both the pool upsert's dates and the spin's `timestamp`, which the source takes from separate clock reads (the spin schema's `Date.now` default).
- Connection handling, BEGIN/COMMIT, client release, logging and the JSON response bodies other than the status code and the returned data: process plumbing. A failing ROLLBACK is not modelled.
- Concurrency between requests and the atomicity of MongoDB's `$inc` under contention: each call is modelled as one atomic step.
- Numeric representation: points and amounts are unbounded integers; DECIMAL(20,2) rounding, JavaScript floating point, `u64`/`i64` overflow of the record counter and timestamps, and JSON `null` or non-numeric deltas are not modelled.
- VARCHAR length limits of the `users` and `transactions` columns: a too-long wallet, signature, type or pool id would also be rejected by PostgreSQL; the model only has the NOT NULL, UNIQUE and FOREIGN KEY constraints.
- The `username`, `email`, `id` and `created_at` columns, and mongoose's `timestamps` option and `updatedAt` field: never written by the modelled code.
- Anchor's account-space limit (room for 1000 records) and the account allocation done by `init`: outside the instruction logic.
- Request fields of unexpected JSON types (a `null` in the spin payload overriding the wallet, a non-object `poolMetadata`, an array-valued `poolId` query): the model types every field as present-with-its-type or absent.
- Pool metadata values are opaque strings rather than arbitrary JSON; the backend never looks inside them.
- The Solana RPC controller and routes, the frontend, and server start-up: thin wrappers over external libraries and UI.
