/** The shutdown check of the Besu Clique consensus. */
module BesuClique {
  import opened Basics
  import opened Rotation

  /** A block number as parsed into an int64; the client reports no negative one. */
  type BlockNumber = n: int | 0 <= n < 0x8000_0000_0000_0000

  /** One entry of the reply of clique_getSignerMetrics; None stands for a last
      proposed block number that does not parse. */
  datatype Metric = Metric(address: string, lastProposed: Option<BlockNumber>)

  datatype Error =
    | CoinbaseFailed
    | SignersFailed
    | BlockNumberFailed
    | MetricsFailed
    | MetricUnreadable
    | ThresholdReached(allowed: int, down: int)

  /** The number of signers out of n that may be down. */
  function Allowed(n: int): int {
    GoDiv(n - 1, 2)
  }

  ghost predicate Readable(metrics: seq<Metric>) {
    forall i :: 0 <= i < |metrics| ==> metrics[i].lastProposed.Some?
  }

  predicate Stale(current: BlockNumber, signers: nat, metric: Metric) {
    metric.lastProposed.Some? && current - metric.lastProposed.value > signers
  }

  /** The metrics of the signers the check takes to be down. */
  ghost function CountedDown(current: BlockNumber, signers: nat, metrics: seq<Metric>): set<int> {
    set i | 0 <= i < |metrics| && Stale(current, signers, metrics[i])
  }

  /** When a signer may hibernate. */
  ghost predicate Accepts(current: BlockNumber, signers: nat, metrics: seq<Metric>) {
    Readable(metrics) && |CountedDown(current, signers, metrics)| < Allowed(signers)
  }

  method ValidateShutdown(coinbase: Result<string>, signers: Result<seq<string>>,
                          current: Result<BlockNumber>, metrics: Result<seq<Metric>>)
    returns (member: bool, err: Option<Error>)
    ensures member <==> coinbase.Ok? && signers.Ok? && coinbase.value in signers.value
    ensures coinbase.Failed? ==> err == Some(CoinbaseFailed)
    ensures coinbase.Ok? && signers.Failed? ==> err == Some(SignersFailed)
    ensures coinbase.Ok? && signers.Ok? && !member ==> err == None
    ensures member && current.Failed? ==> err == Some(BlockNumberFailed)
    ensures member && current.Ok? && metrics.Failed? ==> err == Some(MetricsFailed)
    ensures member && current.Ok? && metrics.Ok? ==>
              && (err == None <==> Accepts(current.value, |signers.value|, metrics.value))
              // one more down still leaves a majority
              && (err == None <==>
                  (forall i :: 0 <= i < |metrics.value| ==> metrics.value[i].lastProposed.Some?) &&
                  2 * (|CountedDown(current.value, |signers.value|, metrics.value)| + 1) < |signers.value|)
              && (err == Some(MetricUnreadable) <==> !Readable(metrics.value))
    ensures member && current.Ok? && metrics.Ok? && Readable(metrics.value) && err.Some? ==>
              err.value == ThresholdReached(Allowed(|signers.value|),
                                            |CountedDown(current.value, |signers.value|, metrics.value)|)
  {
    if coinbase.Failed? {
      return false, Some(CoinbaseFailed);
    }
    if signers.Failed? {
      return false, Some(SignersFailed);
    }
    var isSigner := IsSigner(coinbase.value, signers.value);
    if !isSigner {
      return false, None;
    }
    if current.Failed? {
      return true, Some(BlockNumberFailed);
    }
    if metrics.Failed? {
      return true, Some(MetricsFailed);
    }
    var totalSigners := |signers.value|;
    var nodesDown := NodesDown(current.value, totalSigners, metrics.value);
    if nodesDown.None? {
      return true, Some(MetricUnreadable);
    }
    var allowedDownNodes := Allowed(totalSigners);
    if nodesDown.value >= allowedDownNodes {
      return true, Some(ThresholdReached(allowedDownNodes, nodesDown.value));
    }
    return true, None;
  }

  method IsSigner(coinbase: string, signers: seq<string>) returns (isSigner: bool)
    ensures isSigner <==> coinbase in signers
  {
    isSigner := false;
    for i := 0 to |signers|
      invariant !isSigner && coinbase !in signers[..i]
    {
      if signers[i] == coinbase {
        isSigner := true;
        break;
      }
    }
    assert signers[..|signers|] == signers;
  }

  /** The number of stale metrics; None when one of them does not parse. */
  method NodesDown(current: BlockNumber, totalSigners: nat, status: seq<Metric>) returns (nodesDown: Option<nat>)
    ensures nodesDown == if Readable(status) then Some(|CountedDown(current, totalSigners, status)|) else None
  {
    var down := 0;
    for i := 0 to |status|
      invariant Readable(status[..i])
      invariant down == |CountedDown(current, totalSigners, status[..i])|
    {
      if status[i].lastProposed.None? {
        return None;
      }
      OneMoreMetric(current, totalSigners, status, i);
      if current - status[i].lastProposed.value > totalSigners {
        down := down + 1;
      }
    }
    assert status[..|status|] == status;
    return Some(down);
  }

  lemma OneMoreMetric(current: BlockNumber, totalSigners: nat, status: seq<Metric>, i: nat)
    requires i < |status|
    ensures CountedDown(current, totalSigners, status[..i + 1]) ==
            CountedDown(current, totalSigners, status[..i]) +
                      if Stale(current, totalSigners, status[i]) then {i} else {}
  {
  }

  // ---- Detection against a block history -----------------------------------

  /** chain[h] sealed block h; block 0 is the genesis block, which nobody sealed. */
  type Chain = c: seq<string> | 0 < |c| <= 0x8000_0000_0000_0000 witness [""]

  /** The last block v sealed among the last `window` blocks, or 0 when it sealed
      none of them. */
  ghost function LastSealed(chain: Chain, v: string, window: nat): BlockNumber
    decreases |chain|
  {
    var top := |chain| - 1;
    if top == 0 || window == 0 then 0 else if chain[top] == v then top else LastSealed(chain[..top], v, window - 1)
  }

  /** What the client reports for these signers at the head of the chain. */
  ghost function MetricsOf(chain: Chain, signers: seq<string>, window: nat): (metrics: seq<Metric>)
    ensures |metrics| == |signers|
  {
    seq(|signers|, i requires 0 <= i < |signers| => Metric(signers[i], Some(LastSealed(chain, signers[i], window))))
  }

  /** v sealed none of the last `count` blocks. */
  ghost predicate SilentFor(chain: Chain, v: string, count: nat) {
    forall h :: 1 <= h < |chain| && |chain| - count <= h ==> chain[h] != v
  }

  lemma {:induction false} LastSealedIsLast(chain: Chain, v: string, window: nat)
    ensures var last := LastSealed(chain, v, window);
            && last < |chain|
            && (last > 0 ==> chain[last] == v && |chain| - window <= last)
            && (last == 0 ==> SilentFor(chain, v, window))
            && (last > 0 ==> forall h :: last < h < |chain| ==> chain[h] != v)
    decreases |chain|
  {
    var top := |chain| - 1;
    if top > 0 && window > 0 && chain[top] != v {
      LastSealedIsLast(chain[..top], v, window - 1);
      assert forall h :: 0 <= h < top ==> chain[..top][h] == chain[h];
    }
  }

  function Min(a: nat, b: nat): nat {
    if a < b then a else b
  }

  /** On a chain of more than N blocks the check counts down exactly the signers
      that sealed none of the last N+1, or none of the metrics' window if that is
      shorter; on a shorter chain it counts nobody. */
  lemma DetectionMatchesHistory(chain: Chain, signers: seq<string>, window: nat, i: nat)
    requires i < |signers|
    ensures i in CountedDown(|chain| - 1, |signers|, MetricsOf(chain, signers, window)) <==>
            |chain| - 1 > |signers| && SilentFor(chain, signers[i], Min(window, |signers| + 1))
  {
    LastSealedIsLast(chain, signers[i], window);
  }

  /** What the check is meant to find on every chain: the signers that sealed none
      of the last N+1 blocks. */
  ghost predicate Detects(chain: Chain, signers: seq<string>, window: nat) {
    forall i :: 0 <= i < |signers| ==>
      (i in CountedDown(|chain| - 1, |signers|, MetricsOf(chain, signers, window)) <==>
         |chain| - 1 > |signers| && SilentFor(chain, signers[i], |signers| + 1))
  }

  /** The metrics' window the check needs, exactly: it finds them on all chains if
      and only if the window is longer than the number of signers.  With metrics
      of 100 blocks the limit is 99 signers. */
  lemma WindowBound(signers: seq<string>, window: nat)
    requires 0 < |signers| < 0x7FFF_FFFF_FFFF_FFFF
    ensures (forall chain: Chain :: Detects(chain, signers, window)) <==> window > |signers|
  {
    if window > |signers| {
      forall chain: Chain ensures Detects(chain, signers, window) {
        forall i | 0 <= i < |signers| {
          DetectionMatchesHistory(chain, signers, window, i);
        }
      }
    } else {
      var n := |signers|;
      var blocks := seq(n + 2, h => if h == n + 1 - window then signers[0] else signers[0] + "x");
      var chain: Chain := blocks;
      DetectionMatchesHistory(chain, signers, window, 0);
      assert chain[n + 1 - window] == signers[0];
      assert !Detects(chain, signers, window);
    }
  }

  // ---- Rotation ------------------------------------------------------------

  /** From block `from` on, block h is sealed by the signer at place turns[h],
      and the turn passes along the ring without skipping a live signer. */
  ghost predicate RotatesFrom(chain: Chain, ring: seq<string>, live: set<string>, turns: seq<nat>, from: nat) {
    from <= |chain| == |turns| && Rotates(ring, live, turns[from..], chain[from..])
  }

  /** A live signer k places ahead of the sealer of block h seals within k blocks. */
  lemma {:induction false} TurnComes(ring: seq<string>, live: set<string>, turns: seq<nat>, blocks: seq<string>,
                                     h: nat, k: nat)
    returns (at: nat)
    requires Rotates(ring, live, turns, blocks)
    requires 1 <= k <= |ring| && h + k < |blocks| && Ahead(ring, turns[h], k) in live
    ensures h < at <= h + k && blocks[at] == Ahead(ring, turns[h], k)
    decreases k
  {
    var i, j := turns[h], turns[h + 1];
    assert PassesTurn(ring, live, i, j);
    var d: nat :| 1 <= d <= |ring| && j == Around(i, d, |ring|)
                  && forall e: nat :: 0 < e < d ==> Ahead(ring, i, e) !in live;
    assert d <= k;
    if d == k {
      at := h + 1;
    } else {
      at := TurnComes(ring, live, turns, blocks, h + 1, k - d);
    }
  }

  /** While the turn rotates over the live signers, no live signer is counted down
      as long as the window covers a round, and every one silent for N+1 blocks is. */
  lemma RotationKeepsLiveUncounted(chain: Chain, signers: seq<string>, live: set<string>, turns: seq<nat>, window: nat)
    requires |chain| - 1 > |signers| > 0 && window >= |signers|
    requires RotatesFrom(chain, signers, live, turns, |chain| - 1 - |signers|)
    ensures forall i :: i in CountedDown(|chain| - 1, |signers|, MetricsOf(chain, signers, window)) ==>
              signers[i] !in live
    ensures forall i :: 0 <= i < |signers| && SilentFor(chain, signers[i], |signers| + 1) ==>
              i in CountedDown(|chain| - 1, |signers|, MetricsOf(chain, signers, window))
  {
    var n, from := |signers|, |chain| - 1 - |signers|;
    forall i | 0 <= i < n
      ensures SilentFor(chain, signers[i], n + 1) ==>
                i in CountedDown(|chain| - 1, n, MetricsOf(chain, signers, window))
      ensures signers[i] in live ==> i !in CountedDown(|chain| - 1, n, MetricsOf(chain, signers, window))
    {
      DetectionMatchesHistory(chain, signers, window, i);
      if signers[i] in live {
        var k := Gap(turns[from..][0], i, n);
        var at := TurnComes(signers, live, turns[from..], chain[from..], 0, k);
        assert chain[from + at] == signers[i];
      }
    }
  }

  /** When exactly the signers in `up` have taken the turns since block `from`, the
      metrics of the others are the stale ones. */
  lemma TurnsReport(chain: Chain, ring: seq<string>, up: set<string>, turns: seq<nat>, window: nat)
    requires Distinct(ring) && ring != [] && up <= Names(ring) && |chain| - 1 > |ring| && window >= |ring|
    requires RotatesFrom(chain, ring, up, turns, |chain| - 1 - |ring|)
    requires forall h :: |chain| - 1 - |ring| <= h < |chain| ==> chain[h] in up
    ensures var m := MetricsOf(chain, ring, window);
            && (forall i :: i in CountedDown(|chain| - 1, |ring|, m) <==> 0 <= i < |ring| && ring[i] !in up)
            && (Accepts(|chain| - 1, |ring|, m) <==> 2 * (|Names(ring) - up| + 1) < |ring|)
  {
    var m := MetricsOf(chain, ring, window);
    RotationKeepsLiveUncounted(chain, ring, up, turns, window);
    assert CountedDown(|chain| - 1, |ring|, m) == Absent(ring, up);
    PlacesCount(ring, up);
  }

  /** The places whose signer is not in `up`. */
  ghost function Absent(ring: seq<string>, up: set<string>): set<int> {
    set i | 0 <= i < |ring| && ring[i] !in up
  }

  lemma AbsentSnoc(front: seq<string>, v: string, up: set<string>)
    ensures Absent(front + [v], up) == Absent(front, up) + if v !in up then {|front|} else {}
    ensures Names(front + [v]) - up == (Names(front) - up) + if v !in up then {v} else {}
  {
  }

  lemma {:induction false} PlacesCount(ring: seq<string>, up: set<string>)
    requires Distinct(ring)
    ensures |Absent(ring, up)| == |Names(ring) - up|
  {
    if ring == [] {
      assert Absent(ring, up) == {} && Names(ring) - up == {};
    } else {
      var front, v := ring[..|ring| - 1], ring[|ring| - 1];
      assert ring == front + [v] && v !in Names(front);
      PlacesCount(front, up);
      AbsentSnoc(front, v, up);
    }
  }
}
