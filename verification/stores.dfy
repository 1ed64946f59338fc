/**
  The state behind the backend: the relational ledger (tables `users` and
  `transactions`) and the document store (collections of `Pool` and
  `SpinWheel` documents), as plain immutable values.
*/
module Stores {
  import opened Wrappers

  type Wallet = string
  type PoolId = string

  /** Pool metadata is a free-form JSON object; the backend stores it
      without looking inside, so its values are kept as opaque strings. */
  type Metadata = map<string, string>

  /** JavaScript truthiness of an optional string: present and non-empty. */
  predicate Truthy(s: Option<string>) {
    s.Some? && s.value != ""
  }

  // ---------------------------------------------------------------- ledger

  /** The only status the backend ever writes into a transaction row. */
  const TxnCompleted: string := "completed"

  /** A row of `transactions`. `signature` and `txnType` are NOT NULL
      columns, so a stored row always has them. */
  datatype Txn = Txn(
    walletAddress: Wallet,
    signature: string,
    txnType: string,
    status: string,
    amount: int,
    pointsDelta: int,
    poolId: PoolId)

  /** The relational store: `users` keyed by wallet address (only the points
      balance is ever written) and the `transactions` rows in insertion
      order. */
  datatype Ledger = Ledger(users: map<Wallet, int>, transactions: seq<Txn>)

  /** No two rows share a signature: the UNIQUE constraint. */
  predicate UniqueSignatures(txns: seq<Txn>) {
    forall i, j :: 0 <= i < j < |txns| ==> txns[i].signature != txns[j].signature
  }

  /** Every row's wallet has a user row: the FOREIGN KEY constraint. */
  predicate ForeignKeyHolds(users: map<Wallet, int>, txns: seq<Txn>) {
    forall i :: 0 <= i < |txns| ==> txns[i].walletAddress in users
  }

  /** The table constraints a committed ledger satisfies. */
  predicate LedgerValid(l: Ledger) {
    UniqueSignatures(l.transactions) && ForeignKeyHolds(l.users, l.transactions)
  }

  // -------------------------------------------------------- document store

  datatype PoolStatus = Active | Completed | Cancelled

  /** A `Pool` document. Dates are milliseconds since the epoch. */
  datatype Pool = Pool(
    poolId: PoolId,
    name: string,
    totalPoints: int,
    participantCount: int,
    startDate: int,
    endDate: int,
    status: PoolStatus,
    metadata: Metadata)

  datatype SpinStatus = Pending | Completed | Failed

  /** The `result` sub-document of a spin. */
  datatype SpinOutcome = SpinOutcome(points: int, multiplier: Option<int>, reward: Option<string>)

  /** A `SpinWheel` document. `timestamp` is milliseconds since the epoch. */
  datatype Spin = Spin(
    walletAddress: Wallet,
    poolId: PoolId,
    result: SpinOutcome,
    timestamp: int,
    transactionSignature: Option<string>,
    status: SpinStatus)

  /** Both stores together. */
  datatype Store = Store(ledger: Ledger, pools: map<PoolId, Pool>, spins: seq<Spin>)

  // ---------------------------------------------------------------- errors

  /** What a store call throws. `StoreUnavailable` stands for every failure
      that does not come from the data: a lost connection, a timeout, a
      server-side error. */
  datatype DbError =
    | NotNullViolation(column: string)
    | UniqueViolation(column: string)
    | ForeignKeyViolation(column: string)
    | ValidationError(path: string)
    | StoreUnavailable
}
