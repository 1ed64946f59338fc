/**
  The database service: the five store operations of the backend, each a
  pure function from the current store contents to a `Result`.  An `Err`
  means the call threw; the caller keeps the contents it passed in, which
  is what the relational transaction's ROLLBACK guarantees for the ledger
  and what a single-document write guarantees for the document store.
  `unavailable` says that the store fails the call for a reason outside
  the data (connection lost, timeout).
*/
module DatabaseService {
  import opened Wrappers
  import opened Stores
  import SpinHistory

  const MsPerDay: int := 24 * 60 * 60 * 1000

  /** Length of the default window of a newly created pool. */
  const DefaultPoolDays: int := 30

  // ------------------------------------------------------ updateUserPoints

  /** The arguments of `updateUserPoints`. Signature and type may be
      missing at run time, since the handler passes request fields
      through unchecked. */
  datatype PointsUpdate = PointsUpdate(
    walletAddress: Wallet,
    pointsDelta: int,
    poolId: PoolId,
    transactionSignature: Option<string>,
    transactionType: Option<string>,
    amount: Option<int>)

  /** `amount || 0`: a missing amount is stored as 0. */
  function AmountOrZero(amount: Option<int>): int {
    amount.GetOr(0)
  }

  predicate SignatureTaken(txns: seq<Txn>, signature: string) {
    exists i :: 0 <= i < |txns| && txns[i].signature == signature
  }

  /** The UPDATE of an existing user's balance, or the INSERT of a new
      user whose balance is the delta. */
  function CreditUser(users: map<Wallet, int>, wallet: Wallet, delta: int): (r: map<Wallet, int>)
    ensures r.Keys == users.Keys + {wallet}
    ensures wallet in users ==> r[wallet] == users[wallet] + delta
    ensures wallet !in users ==> r[wallet] == delta
    ensures forall w :: w in users && w != wallet ==> r[w] == users[w]
  {
    if wallet in users then users[wallet := users[wallet] + delta] else users[wallet := delta]
  }

  /** The INSERT INTO transactions, with the table's NOT NULL, UNIQUE and
      FOREIGN KEY constraints. */
  function InsertTransaction(users: map<Wallet, int>, txns: seq<Txn>, p: PointsUpdate): (r: Result<seq<Txn>, DbError>)
    ensures r.Ok? <==> p.transactionSignature.Some? && p.transactionType.Some?
                       && !SignatureTaken(txns, p.transactionSignature.value) && p.walletAddress in users
    ensures p.transactionSignature.None? ==> r == Err(NotNullViolation("signature"))
    ensures r.Ok? ==> |r.value| == |txns| + 1 && r.value[..|txns|] == txns
    ensures r.Ok? ==> r.value[|txns|] == Txn(p.walletAddress, p.transactionSignature.value, p.transactionType.value,
                                             TxnCompleted, AmountOrZero(p.amount), p.pointsDelta, p.poolId)
  {
    if p.transactionSignature.None? then Err(NotNullViolation("signature"))
    else if p.transactionType.None? then Err(NotNullViolation("type"))
    else if SignatureTaken(txns, p.transactionSignature.value) then Err(UniqueViolation("signature"))
    else if p.walletAddress !in users then Err(ForeignKeyViolation("wallet_address"))
    else
      Ok(txns + [Txn(p.walletAddress, p.transactionSignature.value, p.transactionType.value,
                     TxnCompleted, AmountOrZero(p.amount), p.pointsDelta, p.poolId)])
  }

  /** `updateUserPoints`: credit the user, then record the transaction, in
      one relational transaction. */
  function UpdateUserPoints(l: Ledger, p: PointsUpdate, unavailable: bool): (r: Result<Ledger, DbError>)
    ensures r.Ok? <==> !unavailable && p.transactionSignature.Some? && p.transactionType.Some?
                       && !SignatureTaken(l.transactions, p.transactionSignature.value)
    ensures r.Ok? ==> r.value.users.Keys == l.users.Keys + {p.walletAddress}
    ensures r.Ok? && p.walletAddress in l.users ==> r.value.users[p.walletAddress] == l.users[p.walletAddress] + p.pointsDelta
    ensures r.Ok? && p.walletAddress !in l.users ==> r.value.users[p.walletAddress] == p.pointsDelta
    ensures r.Ok? ==> forall w :: w in l.users && w != p.walletAddress ==> r.value.users[w] == l.users[w]
    ensures r.Ok? ==> |r.value.transactions| == |l.transactions| + 1
    ensures r.Ok? ==> r.value.transactions[..|l.transactions|] == l.transactions
    ensures r.Ok? ==> var t := r.value.transactions[|l.transactions|];
                      && t.walletAddress == p.walletAddress
                      && Some(t.signature) == p.transactionSignature
                      && Some(t.txnType) == p.transactionType
                      && t.status == TxnCompleted
                      && t.amount == AmountOrZero(p.amount)
                      && t.pointsDelta == p.pointsDelta
                      && t.poolId == p.poolId
  {
    if unavailable then Err(StoreUnavailable)
    else
      var users := CreditUser(l.users, p.walletAddress, p.pointsDelta);
      match InsertTransaction(users, l.transactions, p)
      case Err(e) => Err(e)
      case Ok(txns) => Ok(Ledger(users, txns))
  }

  /** A committed `updateUserPoints` keeps the table constraints, in
      particular the foreign key of every transaction row. */
  lemma UpdateUserPointsPreservesLedgerValid(l: Ledger, p: PointsUpdate, unavailable: bool)
    requires LedgerValid(l)
    requires UpdateUserPoints(l, p, unavailable).Ok?
    ensures LedgerValid(UpdateUserPoints(l, p, unavailable).value)
  {
    var l' := UpdateUserPoints(l, p, unavailable).value;
    var n := |l.transactions|;
    forall i, j | 0 <= i < j < |l'.transactions|
      ensures l'.transactions[i].signature != l'.transactions[j].signature
    {
      if j == n {
        assert l'.transactions[i] == l.transactions[i];
      } else {
        assert l'.transactions[i] == l.transactions[i] && l'.transactions[j] == l.transactions[j];
      }
    }
    forall i | 0 <= i < |l'.transactions|
      ensures l'.transactions[i].walletAddress in l'.users
    {
      if i < n {
        assert l'.transactions[i] == l.transactions[i];
      }
    }
  }

  /** A second submission of a signature already recorded fails on the
      UNIQUE constraint, so the ledger keeps only the first write. */
  lemma DuplicateSignatureRejected(l: Ledger, p: PointsUpdate, q: PointsUpdate)
    requires UpdateUserPoints(l, p, false).Ok?
    requires q.transactionSignature == p.transactionSignature && q.transactionType.Some?
    ensures UpdateUserPoints(UpdateUserPoints(l, p, false).value, q, false) == Err(UniqueViolation("signature"))
  {
    var l' := UpdateUserPoints(l, p, false).value;
    assert l'.transactions[|l.transactions|].signature == q.transactionSignature.value;
  }

  /** Balances are additive: two committed updates of one wallet add both
      deltas to the balance it had (0 if it had no row). */
  lemma PointsAreAdditive(l: Ledger, p: PointsUpdate, q: PointsUpdate)
    requires p.walletAddress == q.walletAddress
    requires UpdateUserPoints(l, p, false).Ok?
    requires UpdateUserPoints(UpdateUserPoints(l, p, false).value, q, false).Ok?
    ensures UpdateUserPoints(UpdateUserPoints(l, p, false).value, q, false).value.users[p.walletAddress]
            == (if p.walletAddress in l.users then l.users[p.walletAddress] else 0) + p.pointsDelta + q.pointsDelta
  {
  }

  // ---------------------------------------------------- updatePoolMetadata

  /** The arguments of `updatePoolMetadata`; a missing delta defaults to 0. */
  datatype PoolUpdate = PoolUpdate(
    poolId: PoolId,
    metadata: Metadata,
    participantDelta: Option<int>,
    pointsDelta: Option<int>)

  /** Every pool document is stored under its own id. */
  predicate PoolsKeyed(pools: map<PoolId, Pool>) {
    forall id :: id in pools ==> pools[id].poolId == id
  }

  /** The document `$setOnInsert` creates for an unseen pool, before the
      `$set` and `$inc` are applied to it. */
  function FreshPool(poolId: PoolId, now: int): Pool {
    Pool(poolId, "Pool " + poolId, 0, 0, now, now + DefaultPoolDays * MsPerDay, Active, map[])
  }

  /** `updatePoolMetadata`: an upsert that replaces the metadata, increments
      both counters and, only when it creates the document, sets name,
      window and status. `now` is the clock reading of the call. */
  function UpdatePoolMetadata(pools: map<PoolId, Pool>, u: PoolUpdate, now: int, unavailable: bool)
    : (r: Result<map<PoolId, Pool>, DbError>)
    ensures r.Ok? <==> !unavailable
    ensures r.Ok? ==> r.value.Keys == pools.Keys + {u.poolId}
    ensures r.Ok? ==> forall id :: id in pools && id != u.poolId ==> r.value[id] == pools[id]
    ensures r.Ok? ==> r.value[u.poolId].metadata == u.metadata
    ensures r.Ok? && u.poolId in pools ==>
              var before, after := pools[u.poolId], r.value[u.poolId];
              && after.participantCount == before.participantCount + u.participantDelta.GetOr(0)
              && after.totalPoints == before.totalPoints + u.pointsDelta.GetOr(0)
              && after.poolId == before.poolId && after.name == before.name
              && after.startDate == before.startDate && after.endDate == before.endDate
              && after.status == before.status
    ensures r.Ok? && u.poolId !in pools ==>
              var created := r.value[u.poolId];
              && created.poolId == u.poolId
              && created.name == "Pool " + u.poolId
              && created.participantCount == u.participantDelta.GetOr(0)
              && created.totalPoints == u.pointsDelta.GetOr(0)
              && created.status == Active
              && created.startDate == now
              && created.endDate == created.startDate + 30 * 24 * 60 * 60 * 1000
  {
    if unavailable then Err(StoreUnavailable)
    else
      var before := if u.poolId in pools then pools[u.poolId] else FreshPool(u.poolId, now);
      var after := before.(
        metadata := u.metadata,
        participantCount := before.participantCount + u.participantDelta.GetOr(0),
        totalPoints := before.totalPoints + u.pointsDelta.GetOr(0));
      Ok(pools[u.poolId := after])
  }

  /** The upsert keeps every document under its own id. */
  lemma UpdatePoolMetadataKeepsKeys(pools: map<PoolId, Pool>, u: PoolUpdate, now: int)
    requires PoolsKeyed(pools)
    ensures PoolsKeyed(UpdatePoolMetadata(pools, u, now, false).value)
  {
  }

  /** Increments accumulate: two upserts of one pool leave the counters
      where one upsert with the summed deltas would, whatever the clock
      reading of the second call, and the metadata of the last one. */
  lemma PoolUpsertsAccumulate(pools: map<PoolId, Pool>, u: PoolUpdate, v: PoolUpdate, now1: int, now2: int)
    requires u.poolId == v.poolId
    ensures var twice := UpdatePoolMetadata(UpdatePoolMetadata(pools, u, now1, false).value, v, now2, false).value;
            var once := UpdatePoolMetadata(pools, PoolUpdate(u.poolId, v.metadata,
                          Some(u.participantDelta.GetOr(0) + v.participantDelta.GetOr(0)),
                          Some(u.pointsDelta.GetOr(0) + v.pointsDelta.GetOr(0))), now1, false).value;
            twice == once
  {
  }

  // -------------------------------------------------- recordSpinWheelResult

  /** The argument of `recordSpinWheelResult`. `points` may be missing at
      run time, since the handler spreads the request's payload into it. */
  datatype SpinRecord = SpinRecord(
    walletAddress: Wallet,
    poolId: PoolId,
    points: Option<int>,
    multiplier: Option<int>,
    reward: Option<string>,
    transactionSignature: Option<string>)

  /** A spin is `completed` when it carries a truthy signature. */
  function StatusFor(signature: Option<string>): SpinStatus {
    if Truthy(signature) then SpinStatus.Completed else Pending
  }

  /** `SpinWheel.create`: validation of the required paths (a required
      string must be non-empty, a required number present), then one new
      document stamped with the clock reading `now`. */
  function RecordSpinWheelResult(spins: seq<Spin>, s: SpinRecord, now: int, unavailable: bool)
    : (r: Result<seq<Spin>, DbError>)
    ensures r.Ok? <==> !unavailable && s.walletAddress != "" && s.poolId != "" && s.points.Some?
    ensures !unavailable && s.points.None? ==> r.Err? && r.error.ValidationError?
    ensures r.Ok? ==> |r.value| == |spins| + 1 && r.value[..|spins|] == spins
    ensures r.Ok? ==> var spin := r.value[|spins|];
                      && spin.walletAddress == s.walletAddress
                      && spin.poolId == s.poolId
                      && spin.result == SpinOutcome(s.points.value, s.multiplier, s.reward)
                      && spin.timestamp == now
                      && spin.transactionSignature == s.transactionSignature
                      && (spin.status == SpinStatus.Completed <==> Truthy(s.transactionSignature))
                      && (spin.status == Pending <==> !Truthy(s.transactionSignature))
  {
    if unavailable then Err(StoreUnavailable)
    else if s.walletAddress == "" then Err(ValidationError("walletAddress"))
    else if s.poolId == "" then Err(ValidationError("poolId"))
    else if s.points.None? then Err(ValidationError("result.points"))
    else
      var spin := Spin(s.walletAddress, s.poolId, SpinOutcome(s.points.value, s.multiplier, s.reward),
                       now, s.transactionSignature, StatusFor(s.transactionSignature));
      Ok(spins + [spin])
  }

  /** There is no de-duplication: recording the same spin twice stores
      two equal documents. */
  lemma SpinsAreNotDeduplicated(spins: seq<Spin>, s: SpinRecord, now: int)
    requires RecordSpinWheelResult(spins, s, now, false).Ok?
    ensures var twice := RecordSpinWheelResult(RecordSpinWheelResult(spins, s, now, false).value, s, now, false);
            && twice.Ok?
            && |twice.value| == |spins| + 2
            && twice.value[|spins|] == twice.value[|spins| + 1]
  {
  }

  // ------------------------------------------------------------ the reads

  /** `getPoolMetadata`: the stored document, or nothing when the pool is
      unknown. */
  function GetPoolMetadata(pools: map<PoolId, Pool>, poolId: PoolId, unavailable: bool)
    : (r: Result<Option<Pool>, DbError>)
    ensures r.Ok? <==> !unavailable
    ensures r.Ok? ==> (r.value.Some? <==> poolId in pools)
    ensures r.Ok? && poolId in pools ==> r.value.value == pools[poolId]
  {
    if unavailable then Err(StoreUnavailable)
    else if poolId in pools then Ok(Some(pools[poolId]))
    else Ok(None)
  }

  /** A read after a committed upsert finds the pool with the new metadata. */
  lemma ReadAfterUpsert(pools: map<PoolId, Pool>, u: PoolUpdate, now: int)
    ensures var read := GetPoolMetadata(UpdatePoolMetadata(pools, u, now, false).value, u.poolId, false);
            read.Ok? && read.value.Some? && read.value.value.metadata == u.metadata
  {
  }

  /** `getUserSpinHistory`: the wallet's spins, filtered by pool when the
      pool argument is truthy, newest first, at most fifty. */
  function GetUserSpinHistory(spins: seq<Spin>, walletAddress: Wallet, poolId: Option<string>, unavailable: bool)
    : (r: Result<seq<Spin>, DbError>)
    ensures r.Ok? <==> !unavailable
    ensures r.Ok? ==> SpinHistory.IsHistoryAnswer(spins, SpinHistory.Query(walletAddress, poolId), r.value)
    ensures r.Ok? ==> forall i :: 0 <= i < |r.value| ==> r.value[i].walletAddress == walletAddress
    ensures r.Ok? && Truthy(poolId) ==> forall i :: 0 <= i < |r.value| ==> r.value[i].poolId == poolId.value
  {
    if unavailable then Err(StoreUnavailable)
    else Ok(SpinHistory.History(spins, SpinHistory.Query(walletAddress, poolId)))
  }
}
