/**
  The spin-history query: the `SpinWheel` documents of one wallet,
  optionally of one pool, newest first, at most fifty of them.  The
  document store's order among spins with equal timestamps is unspecified,
  so `IsHistoryAnswer` admits every tie order and `History` computes one of
  the admitted answers.
*/
module SpinHistory {
  import opened Wrappers
  import opened Stores

  /** The `.limit(50)` of the query. */
  const HistoryLimit: nat := 50

  /** The query document: the wallet always, the pool only when the pool
      filter is truthy. */
  datatype Query = Query(walletAddress: Wallet, poolId: Option<string>)

  predicate Matches(q: Query, s: Spin) {
    s.walletAddress == q.walletAddress && (Truthy(q.poolId) ==> s.poolId == q.poolId.value)
  }

  function Min(a: nat, b: nat): nat {
    if a <= b then a else b
  }

  /** The matching spins, each as often as it is stored. */
  function Filter(spins: seq<Spin>, q: Query): (r: seq<Spin>)
    ensures forall s :: multiset(r)[s] == if Matches(q, s) then multiset(spins)[s] else 0
    ensures forall i :: 0 <= i < |r| ==> Matches(q, r[i])
  {
    if spins == [] then []
    else
      assert spins == [spins[0]] + spins[1..];
      var rest := Filter(spins[1..], q);
      if Matches(q, spins[0]) then [spins[0]] + rest else rest
  }

  /** `sort({ timestamp: -1 })`: timestamps never increase along the sequence. */
  predicate NewestFirst(s: seq<Spin>) {
    forall i, j :: 0 <= i < j < |s| ==> s[i].timestamp >= s[j].timestamp
  }

  /** The tail of a newest-first sequence is newest first. */
  lemma TailNewestFirst(s: seq<Spin>)
    requires NewestFirst(s) && s != []
    ensures NewestFirst(s[1..])
  {
    forall i, j | 0 <= i < j < |s[1..]|
      ensures s[1..][i].timestamp >= s[1..][j].timestamp
    {
      assert s[1..][i] == s[i + 1] && s[1..][j] == s[j + 1];
    }
  }

  /** Every element of `t`, a rearrangement of the tail of `s` plus an `x`
      older than the head of `s`, is no newer than that head. */
  lemma BoundedByHead(x: Spin, s: seq<Spin>, t: seq<Spin>)
    requires NewestFirst(s) && s != []
    requires x.timestamp < s[0].timestamp
    requires multiset(t) == multiset(s[1..]) + multiset{x}
    ensures forall k :: 0 <= k < |t| ==> t[k].timestamp <= s[0].timestamp
  {
    forall k | 0 <= k < |t|
      ensures t[k].timestamp <= s[0].timestamp
    {
      assert t[k] in multiset(t);
      if t[k] != x {
        assert t[k] in multiset(s[1..]);
        var j :| 0 <= j < |s[1..]| && s[1..][j] == t[k];
        assert s[j + 1] == t[k];
      }
    }
  }

  /** Inserts `x` into a newest-first sequence. */
  function Insert(x: Spin, s: seq<Spin>): (r: seq<Spin>)
    requires NewestFirst(s)
    ensures NewestFirst(r)
    ensures multiset(r) == multiset(s) + multiset{x}
  {
    if s == [] then [x]
    else if x.timestamp >= s[0].timestamp then [x] + s
    else
      assert s == [s[0]] + s[1..];
      TailNewestFirst(s);
      var t := Insert(x, s[1..]);
      BoundedByHead(x, s, t);
      [s[0]] + t
  }

  /** Sorts newest first by insertion. */
  function SortNewestFirst(s: seq<Spin>): (r: seq<Spin>)
    ensures NewestFirst(r)
    ensures multiset(r) == multiset(s)
  {
    if s == [] then []
    else
      assert s == [s[0]] + s[1..];
      Insert(s[0], SortNewestFirst(s[1..]))
  }

  /** How often `s` is stored among the spins the query matches. */
  ghost function MatchCount(spins: seq<Spin>, q: Query, s: Spin): nat {
    if Matches(q, s) then multiset(spins)[s] else 0
  }

  /** How many stored spins the query matches. */
  ghost function CountMatching(spins: seq<Spin>, q: Query): nat {
    if spins == [] then 0
    else (if Matches(q, spins[0]) then 1 else 0) + CountMatching(spins[1..], q)
  }

  /** What the query may return: newest first, drawn from the matching
      spins, as many as the limit allows, and no matching spin left out is
      newer than one returned. */
  ghost predicate IsHistoryAnswer(spins: seq<Spin>, q: Query, out: seq<Spin>) {
    && NewestFirst(out)
    && (forall s :: multiset(out)[s] <= MatchCount(spins, q, s))
    && |out| == Min(HistoryLimit, CountMatching(spins, q))
    && (forall s, i :: multiset(out)[s] < MatchCount(spins, q, s) && 0 <= i < |out|
          ==> s.timestamp <= out[i].timestamp)
  }

  /** The filter keeps exactly the matching spins. */
  lemma {:induction false} FilterCountsMatches(spins: seq<Spin>, q: Query)
    ensures |Filter(spins, q)| == CountMatching(spins, q)
  {
    if spins != [] {
      FilterCountsMatches(spins[1..], q);
    }
  }

  /** A newest-first prefix is a top-k selection of the whole sequence. */
  lemma PrefixIsTopK(sorted: seq<Spin>, k: nat)
    requires NewestFirst(sorted)
    requires k <= |sorted|
    ensures NewestFirst(sorted[..k])
    ensures multiset(sorted[..k]) <= multiset(sorted)
    ensures forall s, i :: s in multiset(sorted) - multiset(sorted[..k]) && 0 <= i < k
              ==> s.timestamp <= sorted[..k][i].timestamp
  {
    assert sorted == sorted[..k] + sorted[k..];
    assert multiset(sorted) == multiset(sorted[..k]) + multiset(sorted[k..]);
    forall s, i | s in multiset(sorted) - multiset(sorted[..k]) && 0 <= i < k
      ensures s.timestamp <= sorted[..k][i].timestamp
    {
      assert s in sorted[k..];
      var j :| 0 <= j < |sorted[k..]| && sorted[k..][j] == s;
      assert sorted[k + j] == s;
    }
  }

  /** The query itself: filter, sort newest first, keep the first fifty. */
  function History(spins: seq<Spin>, q: Query): (r: seq<Spin>)
    ensures IsHistoryAnswer(spins, q, r)
    ensures forall i :: 0 <= i < |r| ==> Matches(q, r[i])
  {
    var matching := Filter(spins, q);
    var sorted := SortNewestFirst(matching);
    var k := Min(HistoryLimit, |sorted|);
    FilterCountsMatches(spins, q);
    PrefixIsTopK(sorted, k);
    assert forall s :: multiset(sorted)[s] == MatchCount(spins, q, s);
    assert forall i :: 0 <= i < k ==> sorted[..k][i] in multiset(matching);
    sorted[..k]
  }

  /** When at most fifty spins match, the query returns each of them as
      often as it is stored. */
  lemma HistoryIsCompleteUnderLimit(spins: seq<Spin>, q: Query)
    requires CountMatching(spins, q) <= HistoryLimit
    ensures forall s :: multiset(History(spins, q))[s] == MatchCount(spins, q, s)
  {
    var out := History(spins, q);
    var matching := multiset(Filter(spins, q));
    FilterCountsMatches(spins, q);
    assert multiset(out) <= matching;
    assert |matching - multiset(out)| == |matching| - |multiset(out)| == 0;
    assert matching == multiset(out);
  }
}
