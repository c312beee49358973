/** The shutdown check of the GoQuorum Clique consensus. */
module GoQuorumClique {
  import opened Basics
  import opened Rotation

  /** The reply of clique_status. */
  datatype Status = Status(numBlocks: int, sealers: map<string, int>)

  datatype Error =
    | StatusFailed
    | CoinbaseFailed
    | ThresholdReached(allowed: int, down: int)

  const ALLOWED_SIGNING_DIFF := 2

  /** The number of sealers out of n that may be down. */
  function Allowed(n: int): int {
    GoDiv(n - 1, 2)
  }

  /** The even share of the window that falls to each sealer. */
  function Share(status: Status): int
    requires status.sealers != map[]
  {
    assert |status.sealers| > 0;
    GoDiv(status.numBlocks, |status.sealers|)
  }

  /** The sealers the check takes to be down. */
  ghost function CountedDown(status: Status): set<string>
    requires status.sealers != map[]
  {
    set v | v in status.sealers && Share(status) - status.sealers[v] >= ALLOWED_SIGNING_DIFF
  }

  /** When a signer may hibernate. */
  ghost predicate Accepts(status: Status)
    requires status.sealers != map[]
  {
    |CountedDown(status)| < Allowed(|status.sealers|)
  }

  method ValidateShutdown(status: Result<Status>, coinbase: Result<string>)
    returns (member: bool, err: Option<Error>)
    ensures member <==> status.Ok? && coinbase.Ok? && coinbase.value in status.value.sealers
    ensures status.Failed? ==> err == Some(StatusFailed)
    ensures status.Ok? && coinbase.Failed? ==> err == Some(CoinbaseFailed)
    ensures status.Ok? && coinbase.Ok? && !member ==> err == None
    ensures member ==> (err == None <==> Accepts(status.value))
    // one more down still leaves a majority
    ensures member ==> (err == None <==> 2 * (|CountedDown(status.value)| + 1) < |status.value.sealers|)
    ensures member && err.Some? ==>
              err.value == ThresholdReached(Allowed(|status.value.sealers|), |CountedDown(status.value)|)
  {
    if status.Failed? {
      return false, Some(StatusFailed);
    }
    if coinbase.Failed? {
      return false, Some(CoinbaseFailed);
    }
    var sealers := status.value.sealers;
    if coinbase.value !in sealers {
      return false, None;
    }
    var maxSealingPerNode := Share(status.value);
    var maxDownNodesAllowed := Allowed(|sealers|);
    var potentialDownNodes := 0;

    var todo := sealers.Keys;
    ghost var counted: set<string> := {};
    while todo != {}
      invariant todo <= sealers.Keys
      invariant potentialDownNodes == |counted|
      invariant forall v :: v in counted <==>
                  v in sealers && v !in todo && maxSealingPerNode - sealers[v] >= ALLOWED_SIGNING_DIFF
      decreases |todo|
    {
      var v :| v in todo;
      if maxSealingPerNode - sealers[v] >= ALLOWED_SIGNING_DIFF {
        potentialDownNodes := potentialDownNodes + 1;
        counted := counted + {v};
      }
      todo := todo - {v};
    }
    assert counted == CountedDown(status.value);
    if potentialDownNodes >= maxDownNodesAllowed {
      return true, Some(ThresholdReached(maxDownNodesAllowed, potentialDownNodes));
    }
    return true, None;
  }

  /** The live sealers share the window evenly to within one block. */
  ghost predicate SharedEvenly(status: Status, silent: set<string>) {
    && silent <= status.sealers.Keys
    && Sum(status.sealers) == status.numBlocks
    && (forall v :: v in silent ==> status.sealers[v] == 0)
    && (forall v :: v in status.sealers ==> status.sealers[v] >= 0)
    && (forall u, v :: u in status.sealers.Keys - silent && v in status.sealers.Keys - silent
          ==> status.sealers[u] - status.sealers[v] <= 1)
  }

  /** A live sealer holds at least the even share over all sealers. */
  lemma LiveHoldsShare(status: Status, silent: set<string>, v: string)
    requires status.sealers != map[] && SharedEvenly(status, silent)
    requires v in status.sealers && v !in silent
    ensures Share(status) <= status.sealers[v]
  {
    var m := status.sealers;
    SumBelow(m, m.Keys - silent, v);
    QuotientBound(status.numBlocks, |m|, m[v]);
  }

  /** When no live sealer is more than one ahead of v, the total falls short of
      giving every sealer one block more than v has. */
  lemma SumBelow(m: map<string, int>, live: set<string>, v: string)
    requires live <= m.Keys && v in live
    requires forall u :: u in live ==> 0 <= m[u] <= m[v] + 1
    requires forall u :: u in m && u !in live ==> m[u] == 0
    ensures Sum(m) < (m[v] + 1) * |m|
  {
    var c, others := m[v], live - {v};
    SumRemove(m, v);
    SumBounds(m - {v}, others, 0, c + 1);
    assert |others| == |live| - 1;
    SubsetSize(live, m.Keys);
    assert |m.Keys| == |m|;
    OneShort(c, |others|, |m|);
  }

  lemma OneShort(c: nat, others: nat, n: nat)
    requires others < n
    ensures c + (c + 1) * others < (c + 1) * n
  {
    MulMonotone(c + 1, others, n - 1);
    TimesOneLess(c + 1, n);
  }

  lemma QuotientBound(x: int, n: int, c: nat)
    requires n > 0 && x < (c + 1) * n
    ensures GoDiv(x, n) <= c
  {
    if x >= 0 && x / n > c {
      MulMonotone(n, c + 1, x / n);
    }
  }

  /** Detection under an even share: no live sealer is counted down; all silent
      ones are when the window holds two blocks per sealer, and none before. */
  lemma DetectionIsExact(status: Status, silent: set<string>)
    requires status.sealers != map[] && SharedEvenly(status, silent)
    ensures CountedDown(status) == if status.numBlocks >= 2 * |status.sealers| then silent else {}
  {
    var m := status.sealers;
    forall v | v in m && v !in silent ensures v !in CountedDown(status) {
      LiveHoldsShare(status, silent, v);
    }
    ShareReachesTwo(status);
  }

  /** The share is two or more exactly when the window holds two blocks per
      sealer; only then can a sealer with no block be counted down. */
  lemma ShareReachesTwo(status: Status)
    requires status.sealers != map[]
    ensures Share(status) >= 2 <==> status.numBlocks >= 2 * |status.sealers|
  {
    var x, n := status.numBlocks, |status.sealers|;
    if x >= 2 * n {
      if x / n < 2 { MulMonotone(n, x / n, 1); }
    } else {
      QuotientBound(x, n, 1);
    }
  }

  /** Whatever the spread of blocks, a sealer with none is counted down once
      the window holds two blocks per sealer. */
  lemma LongWindowSeesSilent(status: Status, v: string)
    requires v in status.sealers && status.sealers[v] == 0
    ensures v in CountedDown(status) <==> status.numBlocks >= 2 * |status.sealers|
  {
    ShareReachesTwo(status);
  }

  // ---- How long a silent sealer stays undetected ---------------------------

  /** The report on a window of blocks. */
  function Report(blocks: seq<string>, sealers: set<string>): (status: Status)
    ensures status.sealers.Keys == sealers && |status.sealers| == |sealers|
    ensures sealers != {} ==> status.sealers != map[]
  {
    var m := Tally(blocks, sealers);
    assert m.Keys == sealers && |m| == |m.Keys|;
    Status(|blocks|, m)
  }

  /** On this window the check takes v to be down. */
  ghost predicate TakenDown(blocks: seq<string>, sealers: set<string>, v: string) {
    v in sealers && v in CountedDown(Report(blocks, sealers))
  }

  /** The most blocks that v can have sealed before it fell silent, when `others`
      live sealers each take their turn between two of v's. */
  function MostBefore(blocks: nat, others: nat): nat {
    (blocks + others) / (others + 1)
  }

  lemma SealedBefore(ring: seq<string>, live: set<string>, turns: seq<nat>, blocks: seq<string>, v: string)
    requires Distinct(ring) && v in ring && v !in live && live <= Names(ring)
    requires Rotates(ring, live, turns, blocks)
    ensures Count(blocks, v) <= MostBefore(|blocks|, |live|)
  {
    var m, c, n := Tally(blocks, Names(ring)), Count(blocks, v), |live|;
    forall u | u in live ensures m[u] >= c - 1 {
      FairShare(ring, live, turns, blocks, u, v);
    }
    assert forall b :: b in blocks ==> b in Names(ring);
    TallySums(blocks, Names(ring));
    SumRemove(m, v);
    SumAtLeast(m - {v}, live, c - 1);
    RoundsFit(c, n, |blocks|);
  }

  /** c blocks by v, with a full round of the n others between any two. */
  lemma RoundsFit(c: nat, n: nat, b: nat)
    requires b >= c + (c - 1) * n
    ensures c <= MostBefore(b, n)
  {
    var q := (b + n) / (n + 1);
    assert c * (n + 1) <= b + n by {
      assert c * (n + 1) == c + (c - 1) * n + n;
    }
    if q < c {
      MulMonotone(n + 1, q + 1, c);
    }
  }

  /** The delay of detection: v is counted down when its share of the window
      exceeds by two what it can have sealed before the last k blocks. */
  lemma SilenceShows(ring: seq<string>, live: set<string>, turns: seq<nat>, blocks: seq<string>, v: string, k: nat)
    requires FallsSilent(ring, live, turns, blocks, v, k) && live <= Names(ring)
    requires MostBefore(|blocks| - k, |live - {v}|) + ALLOWED_SIGNING_DIFF <= |blocks| / |ring|
    ensures TakenDown(blocks, Names(ring), v)
  {
    var n := |blocks| - k;
    NamesCount(ring);
    RotatesFewer(ring, live, live - {v}, turns[..n], blocks[..n]);
    SealedBefore(ring, live - {v}, turns[..n], blocks[..n], v);
    SplitCount(blocks, k, v);
    CountZero(blocks[n..], v);
    ShareOf(blocks, ring);
  }

  /** The most blocks, exactly: v seals first, and takes turns with the live sealers. */
  lemma MostIsReached(ring: seq<string>, live: set<string>, v: string, b: nat)
    returns (turns: seq<nat>, blocks: seq<string>)
    requires Distinct(ring) && v in ring && live <= Names(ring) - {v}
    ensures |blocks| == b && Rotates(ring, live, turns, blocks)
    ensures Count(blocks, v) >= MostBefore(b, |live|)
  {
    var keep := live + {v};
    var i :| 0 <= i < |ring| && ring[i] == v;
    turns := Walk(ring, keep, i, b);
    blocks := BlocksAt(ring, turns);
    WalkPasses(ring, keep, i, b);
    RotatesFewer(ring, keep, live, turns, blocks);
    assert |keep| == |live| + 1;
    if b > 0 {
      FirstLeads(ring, keep, turns, blocks);
    }
    RoundsCover(Count(blocks, v), |live|, b);
  }

  /** Another sealer seals the last k blocks. */
  lemma AppendSilence(ring: seq<string>, live: set<string>, before: seq<nat>, sealed: seq<string>, v: string, k: nat)
    returns (turns: seq<nat>, blocks: seq<string>)
    requires Distinct(ring) && v in ring && |ring| >= 2 && Rotates(ring, live, before, sealed)
    ensures |blocks| == |sealed| + k && FallsSilent(ring, live, turns, blocks, v, k)
    ensures Count(blocks, v) == Count(sealed, v)
  {
    var j := if ring[0] == v then 1 else 0;
    var since := seq(k, _ => ring[j]);
    turns, blocks := before + seq(k, _ => j), sealed + since;
    assert turns[..|sealed|] == before && blocks[..|sealed|] == sealed && blocks[|sealed|..] == since;
    CountConcat(sealed, since, v);
    CountZero(since, v);
  }

  /** The window in which v goes unnoticed longest. */
  lemma LatestWindow(ring: seq<string>, live: set<string>, v: string, w: nat, k: nat)
    returns (turns: seq<nat>, blocks: seq<string>)
    requires Distinct(ring) && v in ring && |ring| >= 2 && live <= Names(ring) - {v} && k <= w
    ensures |blocks| == w && FallsSilent(ring, live, turns, blocks, v, k)
    ensures Count(blocks, v) >= MostBefore(w - k, |live|)
  {
    turns, blocks := MostIsReached(ring, live, v, w - k);
    turns, blocks := AppendSilence(ring, live, turns, blocks, v, k);
  }

  lemma RoundsCover(c: nat, n: nat, b: nat)
    requires b <= (n + 1) * c
    ensures MostBefore(b, n) <= c
  {
    var q := (b + n) / (n + 1);
    assert (n + 1) * q <= b + n;
    if q > c {
      MulMonotone(n + 1, c + 1, q);
    }
  }

  lemma ShareOf(blocks: seq<string>, ring: seq<string>)
    requires Distinct(ring) && ring != []
    ensures Names(ring) != {} && Share(Report(blocks, Names(ring))) == |blocks| / |ring|
  {
    NamesCount(ring);
  }

  /** Main result, the delay for any live sealers and any window: all windows of w
      blocks in which no live sealer is skipped reveal a sealer silent for the last
      k of them -- if and only if its share exceeds by two what it can have sealed
      before. */
  lemma DelayIsExact(ring: seq<string>, live: set<string>, v: string, w: nat, k: nat)
    requires Distinct(ring) && v in ring && |ring| >= 2 && live <= Names(ring) - {v} && k <= w
    ensures (forall turns: seq<nat>, blocks: seq<string> ::
               |blocks| == w && FallsSilent(ring, live, turns, blocks, v, k) ==> TakenDown(blocks, Names(ring), v))
            <==> MostBefore(w - k, |live|) + ALLOWED_SIGNING_DIFF <= w / |ring|
  {
    if MostBefore(w - k, |live|) + ALLOWED_SIGNING_DIFF <= w / |ring| {
      forall turns: seq<nat>, blocks: seq<string> | |blocks| == w && FallsSilent(ring, live, turns, blocks, v, k)
        ensures TakenDown(blocks, Names(ring), v)
      {
        assert live - {v} == live;
        SilenceShows(ring, live, turns, blocks, v, k);
      }
    } else {
      var turns, blocks := LatestWindow(ring, live, v, w, k);
      ShareOf(blocks, ring);
      assert !TakenDown(blocks, Names(ring), v);
    }
  }

  /** With all others live, 3N - 1 silent blocks are enough in every window. */
  lemma DelayAmongLive(b: nat, k: nat, n: nat)
    requires n >= 1 && 3 * n - 1 <= k <= b
    ensures MostBefore(b - k, n - 1) + 2 <= b / n
  {
    var q := (b - k + n - 1) / n;
    assert (q + 2) * n <= b by {
      assert q * n <= b - k + n - 1;
      assert (q + 2) * n == q * n + 2 * n;
    }
    if b / n < q + 2 {
      MulMonotone(n, b / n + 1, q + 2);
    }
  }

  /** 3N - 2 blocks are too few for the window with one block more. */
  lemma DelayTooShort(k: nat, n: nat)
    requires n >= 1 && k <= 3 * n - 2
    ensures MostBefore(1, n - 1) + 2 > (k + 1) / n
  {
    assert (1 + n - 1) / n == 1;
    QuotientBound(k + 1, n, 2);
  }

  /** With all others live, whether or not v ever sealed: k blocks of silence are
      enough in windows of any length if and only if k is at least 3N - 1. */
  lemma SilenceBound(ring: seq<string>, v: string, k: nat)
    requires Distinct(ring) && v in ring && |ring| >= 2
    ensures (forall turns: seq<nat>, blocks: seq<string> ::
               FallsSilent(ring, Names(ring) - {v}, turns, blocks, v, k) ==> TakenDown(blocks, Names(ring), v))
            <==> k >= 3 * |ring| - 1
  {
    var others := Names(ring) - {v};
    NamesCount(ring);
    assert |others| == |ring| - 1 && others - {v} == others;
    if k >= 3 * |ring| - 1 {
      forall turns: seq<nat>, blocks: seq<string> | FallsSilent(ring, others, turns, blocks, v, k)
        ensures TakenDown(blocks, Names(ring), v)
      {
        DelayAmongLive(|blocks|, k, |ring|);
        SilenceShows(ring, others, turns, blocks, v, k);
      }
    } else {
      DelayTooShort(k, |ring|);
      DelayIsExact(ring, others, v, k + 1, k);
    }
  }

  /** When exactly the sealers in `up` take turns, the report counts the others. */
  lemma TurnsReport(ring: seq<string>, up: set<string>, turns: seq<nat>, blocks: seq<string>)
    requires Distinct(ring) && ring != [] && up <= Names(ring) && Rotates(ring, up, turns, blocks)
    requires |blocks| >= 2 * |ring| && forall b :: b in blocks ==> b in up
    ensures Report(blocks, Names(ring)).sealers != map[]
    ensures CountedDown(Report(blocks, Names(ring))) == Names(ring) - up
    ensures Accepts(Report(blocks, Names(ring))) <==> 2 * (|Names(ring) - up| + 1) < |ring|
  {
    var status, silent := Report(blocks, Names(ring)), Names(ring) - up;
    NamesCount(ring);
    assert ring[0] in Names(ring);
    TallySums(blocks, Names(ring));
    forall v | v in silent ensures Count(blocks, v) == 0 {
      CountZero(blocks, v);
    }
    forall u, v | u in up && v in up ensures Count(blocks, u) - Count(blocks, v) <= 1 {
      if u != v {
        FairShare(ring, up, turns, blocks, v, u);
      }
    }
    DetectionIsExact(status, silent);
  }
}
