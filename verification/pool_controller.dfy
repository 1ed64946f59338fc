/**
  The pool request handlers, each a pure function from a request and the
  store contents to a status code and the new store contents.  What the
  handlers cannot see, the clock and whether each store call fails for an
  outside reason, comes in as an `Env`.
*/
module PoolController {
  import opened Wrappers
  import opened Stores
  import SpinHistory
  import DB = DatabaseService

  const StatusOk: int := 200
  const StatusBadRequest: int := 400
  const StatusNotFound: int := 404
  const StatusServerError: int := 500

  /** The `spinWheelResult` object of a request body; every field may be
      absent. */
  datatype SpinPayload = SpinPayload(
    walletAddress: Option<string>,
    poolId: Option<string>,
    points: Option<int>,
    multiplier: Option<int>,
    reward: Option<string>,
    transactionSignature: Option<string>)

  /** The body of `POST /update-user-data`. */
  datatype UpdateRequest = UpdateRequest(
    walletAddress: Option<string>,
    pointsDelta: Option<int>,
    poolId: Option<string>,
    transactionSignature: Option<string>,
    transactionType: Option<string>,
    amount: Option<int>,
    poolMetadata: Option<Metadata>,
    spinWheelResult: Option<SpinPayload>)

  /** Which store calls of one request fail for an outside reason. */
  datatype Faults = Faults(ledger: bool, pools: bool, spins: bool)

  /** The clock reading of the request and the stores' behaviour. */
  datatype Env = Env(now: int, faults: Faults)

  datatype Reply = Reply(status: int, store: Store)

  /** The handler's field check: wallet and pool truthy, delta defined
      (so a delta of 0 passes). */
  predicate ValidRequest(req: UpdateRequest) {
    Truthy(req.walletAddress) && Truthy(req.poolId) && req.pointsDelta.Some?
  }

  function PointsArgs(req: UpdateRequest): DB.PointsUpdate
    requires ValidRequest(req)
  {
    DB.PointsUpdate(req.walletAddress.value, req.pointsDelta.value, req.poolId.value,
                    req.transactionSignature, req.transactionType, req.amount)
  }

  /** The pool update always counts one participant and the request's delta. */
  function PoolArgs(req: UpdateRequest, metadata: Metadata): DB.PoolUpdate
    requires ValidRequest(req)
  {
    DB.PoolUpdate(req.poolId.value, metadata, Some(1), req.pointsDelta)
  }

  /** `{ walletAddress, poolId, ...spinWheelResult, transactionSignature }`:
      the payload's wallet and pool override the request's, and the
      request's signature overrides the payload's, even when absent. */
  function SpinArgs(req: UpdateRequest, payload: SpinPayload): DB.SpinRecord
    requires ValidRequest(req)
  {
    DB.SpinRecord(payload.walletAddress.GetOr(req.walletAddress.value),
                  payload.poolId.GetOr(req.poolId.value),
                  payload.points, payload.multiplier, payload.reward,
                  req.transactionSignature)
  }

  /** The optional pool write. */
  function PoolStep(req: UpdateRequest, st: Store, env: Env): Result<Store, DbError>
    requires ValidRequest(req)
  {
    match req.poolMetadata
    case None => Ok(st)
    case Some(md) =>
      match DB.UpdatePoolMetadata(st.pools, PoolArgs(req, md), env.now, env.faults.pools)
      case Err(e) => Err(e)
      case Ok(pools) => Ok(st.(pools := pools))
  }

  /** The optional spin write. */
  function SpinStep(req: UpdateRequest, st: Store, env: Env): Result<Store, DbError>
    requires ValidRequest(req)
  {
    match req.spinWheelResult
    case None => Ok(st)
    case Some(payload) =>
      match DB.RecordSpinWheelResult(st.spins, SpinArgs(req, payload), env.now, env.faults.spins)
      case Err(e) => Err(e)
      case Ok(spins) => Ok(st.(spins := spins))
  }

  /** Whether the spin write of a valid request would pass validation. */
  predicate SpinArgsAcceptable(req: UpdateRequest, payload: SpinPayload)
    requires ValidRequest(req)
  {
    var s := SpinArgs(req, payload);
    s.walletAddress != "" && s.poolId != "" && s.points.Some?
  }

  /** `updateUserPoolData`: validate, then the ledger write, the pool write
      and the spin write in that order; the first one that throws ends the
      request with 500 and the writes before it stay in place. */
  function UpdateUserPoolData(req: UpdateRequest, st: Store, env: Env): (r: Reply)
    ensures !ValidRequest(req) ==> r == Reply(StatusBadRequest, st)
    ensures r.status == StatusBadRequest <==> !ValidRequest(req)
    ensures r.status in {StatusOk, StatusBadRequest, StatusServerError}
    ensures r.status == StatusOk <==>
              && ValidRequest(req)
              && !env.faults.ledger
              && req.transactionSignature.Some? && req.transactionType.Some?
              && !DB.SignatureTaken(st.ledger.transactions, req.transactionSignature.value)
              && (req.poolMetadata.Some? ==> !env.faults.pools)
              && (req.spinWheelResult.Some? ==>
                    !env.faults.spins && SpinArgsAcceptable(req, req.spinWheelResult.value))
  {
    if !ValidRequest(req) then Reply(StatusBadRequest, st)
    else
      match DB.UpdateUserPoints(st.ledger, PointsArgs(req), env.faults.ledger)
      case Err(_) => Reply(StatusServerError, st)
      case Ok(ledger) =>
        var st1 := st.(ledger := ledger);
        match PoolStep(req, st1, env)
        case Err(_) => Reply(StatusServerError, st1)
        case Ok(st2) =>
          match SpinStep(req, st2, env)
          case Err(_) => Reply(StatusServerError, st2)
          case Ok(st3) => Reply(StatusOk, st3)
  }

  /** The ledger is written first, with the request's own fields; when that
      write fails nothing at all changes. */
  lemma LedgerWrittenFirst(req: UpdateRequest, st: Store, env: Env)
    requires ValidRequest(req)
    ensures var r := UpdateUserPoolData(req, st, env);
            var points := DB.UpdateUserPoints(st.ledger, PointsArgs(req), env.faults.ledger);
            && (points.Err? ==> r == Reply(StatusServerError, st))
            && (points.Ok? ==> r.store.ledger == points.value)
  {
  }

  /** The pool document is touched only when the request carries metadata
      and the ledger write succeeded, and then by one upsert counting one
      participant and the request's delta. */
  lemma PoolWrittenOnlyWithMetadata(req: UpdateRequest, st: Store, env: Env)
    requires ValidRequest(req)
    ensures var r := UpdateUserPoolData(req, st, env);
            var points := DB.UpdateUserPoints(st.ledger, PointsArgs(req), env.faults.ledger);
            && (req.poolMetadata.None? || points.Err? || env.faults.pools ==> r.store.pools == st.pools)
            && (req.poolMetadata.Some? && points.Ok? && !env.faults.pools ==>
                  r.store.pools == DB.UpdatePoolMetadata(st.pools,
                    DB.PoolUpdate(req.poolId.value, req.poolMetadata.value, Some(1), req.pointsDelta),
                    env.now, false).value)
  {
  }

  /** At most one spin is recorded, only when the request carries a spin
      payload, and exactly one whenever such a request gets 200; its
      result is the payload's, and it carries the request's signature whatever the payload
      says, the payload's wallet and pool when it names them, and is
      `completed` exactly when the request's signature is truthy. */
  lemma SpinCarriesRequestSignature(req: UpdateRequest, st: Store, env: Env)
    requires ValidRequest(req)
    ensures var r := UpdateUserPoolData(req, st, env);
            && r.store.spins[..|st.spins|] == st.spins
            && |r.store.spins| <= |st.spins| + 1
            && (r.status == StatusOk && req.spinWheelResult.Some? ==> |r.store.spins| == |st.spins| + 1)
            && (|r.store.spins| == |st.spins| + 1 ==>
                  var spin := r.store.spins[|st.spins|];
                  var payload := req.spinWheelResult.value;
                  && req.spinWheelResult.Some?
                  && r.status == StatusOk
                  && spin.transactionSignature == req.transactionSignature
                  && spin.walletAddress == (if payload.walletAddress.Some? then payload.walletAddress.value
                                            else req.walletAddress.value)
                  && spin.poolId == (if payload.poolId.Some? then payload.poolId.value else req.poolId.value)
                  && spin.timestamp == env.now
                  && spin.result == SpinOutcome(payload.points.value, payload.multiplier, payload.reward)
                  && (spin.status == SpinStatus.Completed <==> Truthy(req.transactionSignature)))
  {
  }

  /** Partial failure: when the ledger write commits and the pool write
      throws, the reply is 500, the ledger keeps the new row and the
      spin is not recorded. */
  lemma PartialFailureKeepsLedgerWrite(req: UpdateRequest, st: Store, env: Env)
    requires ValidRequest(req)
    requires DB.UpdateUserPoints(st.ledger, PointsArgs(req), env.faults.ledger).Ok?
    requires req.poolMetadata.Some? && env.faults.pools
    ensures UpdateUserPoolData(req, st, env)
            == Reply(StatusServerError, st.(ledger := DB.UpdateUserPoints(st.ledger, PointsArgs(req), false).value))
  {
  }

  /** A request without a signature never succeeds: the NOT NULL column
      rejects it and nothing is written. */
  lemma MissingSignatureFails(req: UpdateRequest, st: Store, env: Env)
    requires ValidRequest(req) && req.transactionSignature.None?
    ensures UpdateUserPoolData(req, st, env) == Reply(StatusServerError, st)
  {
  }

  /** Through this handler a recorded spin is `pending` only when the
      signature is the empty string: a missing signature fails the ledger
      write before the spin write is reached. */
  lemma PendingSpinNeedsEmptySignature(req: UpdateRequest, st: Store, env: Env)
    requires |UpdateUserPoolData(req, st, env).store.spins| > |st.spins|
    ensures UpdateUserPoolData(req, st, env).store.spins[|st.spins|].status == Pending
            ==> req.transactionSignature == Some("")
  {
    SpinCarriesRequestSignature(req, st, env);
  }

  /** The handler keeps the ledger's table constraints. */
  lemma UpdateUserPoolDataPreservesLedgerValid(req: UpdateRequest, st: Store, env: Env)
    requires LedgerValid(st.ledger)
    ensures LedgerValid(UpdateUserPoolData(req, st, env).store.ledger)
  {
    if ValidRequest(req) {
      var points := DB.UpdateUserPoints(st.ledger, PointsArgs(req), env.faults.ledger);
      if points.Ok? {
        DB.UpdateUserPointsPreservesLedgerValid(st.ledger, PointsArgs(req), env.faults.ledger);
      }
    }
  }

  /** A request of wallet W1 in pool P1 with signature S1: balance up by 10, one ledger row, one participant and 10 points
      for the pool, and a `completed` spin. */
  lemma WorkedRequest(st: Store, now: int)
    requires "W1" !in st.ledger.users
    requires !DB.SignatureTaken(st.ledger.transactions, "S1")
    requires "P1" in st.pools
    ensures var req := UpdateRequest(Some("W1"), Some(10), Some("P1"), Some("S1"), Some("spin"), None,
                                     Some(map[]), Some(SpinPayload(None, None, Some(10), None, None, None)));
            var r := UpdateUserPoolData(req, st, Env(now, Faults(false, false, false)));
            && r.status == StatusOk
            && r.store.ledger.users["W1"] == 10
            && r.store.ledger.transactions[|st.ledger.transactions|].signature == "S1"
            && r.store.pools["P1"].participantCount == st.pools["P1"].participantCount + 1
            && r.store.pools["P1"].totalPoints == st.pools["P1"].totalPoints + 10
            && r.store.spins[|st.spins|].walletAddress == "W1"
            && r.store.spins[|st.spins|].poolId == "P1"
            && r.store.spins[|st.spins|].status == SpinStatus.Completed
  {
  }

  // ------------------------------------------------------------ the reads

  datatype PoolReply = PoolReply(status: int, data: Option<Pool>)

  /** `GET /metadata/:poolId`. */
  function GetPoolMetadata(pools: map<PoolId, Pool>, poolId: Option<string>, unavailable: bool): (r: PoolReply)
    ensures r.status == StatusBadRequest <==> !Truthy(poolId)
    ensures r.status == StatusServerError <==> Truthy(poolId) && unavailable
    ensures r.status == StatusNotFound <==> Truthy(poolId) && !unavailable && poolId.value !in pools
    ensures r.status == StatusOk <==> Truthy(poolId) && !unavailable && poolId.value in pools
    ensures r.status == StatusOk ==> r.data == Some(pools[poolId.value])
    ensures r.status != StatusOk ==> r.data == None
  {
    if !Truthy(poolId) then PoolReply(StatusBadRequest, None)
    else
      match DB.GetPoolMetadata(pools, poolId.value, unavailable)
      case Err(_) => PoolReply(StatusServerError, None)
      case Ok(None) => PoolReply(StatusNotFound, None)
      case Ok(Some(pool)) => PoolReply(StatusOk, Some(pool))
  }

  /** After a successful update carrying metadata, reading the pool
      answers 200 with that metadata. */
  lemma MetadataVisibleAfterUpdate(req: UpdateRequest, st: Store, env: Env)
    requires UpdateUserPoolData(req, st, env).status == StatusOk
    requires req.poolMetadata.Some?
    ensures var read := GetPoolMetadata(UpdateUserPoolData(req, st, env).store.pools, req.poolId, false);
            read.status == StatusOk && read.data.value.metadata == req.poolMetadata.value
  {
  }

  datatype HistoryReply = HistoryReply(status: int, data: seq<Spin>)

  /** `GET /spin-history/:walletAddress?poolId=`. */
  function GetUserSpinHistory(spins: seq<Spin>, walletAddress: Option<string>, poolId: Option<string>, unavailable: bool)
    : (r: HistoryReply)
    ensures r.status == StatusBadRequest <==> !Truthy(walletAddress)
    ensures r.status == StatusServerError <==> Truthy(walletAddress) && unavailable
    ensures r.status == StatusOk <==> Truthy(walletAddress) && !unavailable
    ensures r.status == StatusOk ==>
              SpinHistory.IsHistoryAnswer(spins, SpinHistory.Query(walletAddress.value, poolId), r.data)
    ensures |r.data| <= SpinHistory.HistoryLimit
  {
    if !Truthy(walletAddress) then HistoryReply(StatusBadRequest, [])
    else
      match DB.GetUserSpinHistory(spins, walletAddress.value, poolId, unavailable)
      case Err(_) => HistoryReply(StatusServerError, [])
      case Ok(history) => HistoryReply(StatusOk, history)
  }
}
