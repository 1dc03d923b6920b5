/**
 * The mini-batch indices both ELBO estimators draw for a `mapData` call, and
 * the per-address memo that makes every sample of one step see the same batch.
 */
module MiniBatch {
  import opened Wrappers

  /** A memo from `mapData` address to its indices (`None`: the whole data set, in order). */
  type Memo = map<string, Option<seq<nat>>>

  /** `Math.floor(x * n)` for a uniform draw x. */
  function FloorIndex(x: real, n: nat): (i: nat)
    requires 0.0 <= x < 1.0
    ensures i < n || n == 0
  {
    assert 0.0 <= x * n as real;
    assert x * n as real < n as real || n == 0;
    (x * n as real).Floor
  }

  /** `_.times(batchSize, ...)`: one index per uniform draw. */
  function BatchIndices(u: seq<real>, n: nat): (ix: seq<nat>)
    requires forall k :: 0 <= k < |u| ==> 0.0 <= u[k] < 1.0
    ensures |ix| == |u| && forall k :: 0 <= k < |u| ==> ix[k] < n || n == 0
  {
    seq(|u|, k requires 0 <= k < |u| => FloorIndex(u[k], n))
  }

  /**
   * The index part of `mapDataFetch`: the memoised indices for the address,
   * else `None` when the batch is the whole data set, else indices from the
   * draws u; the memo afterwards knows the address.
   */
  function FetchIndices(memo: Memo, address: string, dataLength: nat, batchSize: nat, u: seq<real>): (r: (Option<seq<nat>>, Memo))
    requires |u| == batchSize && forall k :: 0 <= k < |u| ==> 0.0 <= u[k] < 1.0
    ensures address in memo ==> r == (memo[address], memo)
    ensures address !in memo ==> r.1 == memo[address := r.0]
    ensures address !in memo ==> (r.0.None? <==> batchSize == dataLength)
    ensures address !in memo && r.0.Some? ==>
      |r.0.value| == batchSize && (dataLength > 0 ==> forall k :: 0 <= k < batchSize ==> r.0.value[k] < dataLength)
  {
    if address in memo then (memo[address], memo)
    else
      var ix := if batchSize == dataLength then None else Some(BatchIndices(u, dataLength));
      (ix, memo[address := ix])
  }

  /** Every later fetch at the same address sees the same batch, whatever it draws. */
  lemma {:induction false} SameBatchAcrossSamples(memo: Memo, address: string, dataLength: nat, batchSize: nat, u1: seq<real>, other: string, len2: nat, batch2: nat, u2: seq<real>)
    requires |u1| == batchSize && forall k :: 0 <= k < |u1| ==> 0.0 <= u1[k] < 1.0
    requires |u2| == batch2 && forall k :: 0 <= k < |u2| ==> 0.0 <= u2[k] < 1.0
    ensures var first := FetchIndices(memo, address, dataLength, batchSize, u1);
      var second := FetchIndices(first.1, other, len2, batch2, u2);
      address in second.1 && second.1[address] == first.0 &&
      (other == address ==> second.0 == first.0)
  {
    var first := FetchIndices(memo, address, dataLength, batchSize, u1);
    assert address in first.1 && first.1[address] == first.0;
  }
}
