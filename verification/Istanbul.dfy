/** The shutdown check of the GoQuorum Istanbul consensus. */
module Istanbul {
  import opened Basics
  import opened Rotation

  /** The reply of istanbul_status: blocks in the window, and how many each validator sealed. */
  datatype SealActivity = SealActivity(numBlocks: int, sealers: map<string, int>)

  datatype Error =
    | IsValidatorFailed
    | StatusFailed
    | MintingNotStarted
    | ThresholdReached(allowed: int, down: int)

  /** f, the number of validators out of n that may be down. */
  function Allowed(n: int): int {
    GoDiv(n - 1, 3)
  }

  /** Some validator sealed at least two blocks more than v.  (A reported count
      below -1 is two short of the initial maximum, which is zero.) */
  ghost predicate Behind(sealers: map<string, int>, v: string)
    requires v in sealers
  {
    sealers[v] < -1 || exists u :: u in sealers && sealers[u] - sealers[v] > 1
  }

  /** The validators the check takes to be down. */
  ghost function CountedDown(sealers: map<string, int>): set<string> {
    set v | v in sealers && Behind(sealers, v)
  }

  /** When a validator may hibernate. */
  ghost predicate Accepts(activity: SealActivity) {
    activity.numBlocks != 0 && |CountedDown(activity.sealers)| < Allowed(|activity.sealers|)
  }

  method ValidateShutdown(isValidator: Result<bool>, activity: Result<SealActivity>)
    returns (member: bool, err: Option<Error>)
    ensures member <==> isValidator == Ok(true)
    ensures isValidator.Failed? ==> err == Some(IsValidatorFailed)
    ensures isValidator == Ok(false) ==> err == None
    ensures member && activity.Failed? ==> err == Some(StatusFailed)
    ensures member && activity.Ok? ==> (err == None <==> Accepts(activity.value))
    // one more down still leaves n >= 3f + 1
    ensures member && activity.Ok? ==>
              (err == None <==> activity.value.numBlocks != 0 &&
                                3 * (|CountedDown(activity.value.sealers)| + 1) + 1 <= |activity.value.sealers|)
    ensures member && activity.Ok? && activity.value.numBlocks == 0 ==> err == Some(MintingNotStarted)
    ensures member && activity.Ok? && activity.value.numBlocks != 0 && err.Some? ==>
              err.value == ThresholdReached(Allowed(|activity.value.sealers|), |CountedDown(activity.value.sealers)|)
  {
    if isValidator.Failed? {
      return false, Some(IsValidatorFailed);
    }
    if !isValidator.value {
      return false, None;
    }
    if activity.Failed? {
      return true, Some(StatusFailed);
    }
    if activity.value.numBlocks == 0 {
      return true, Some(MintingNotStarted);
    }
    var sealers := activity.value.sealers;
    var maxBlockSealed := MaxBlockSealed(sealers);
    var numNodesDown := NumNodesDown(sealers, maxBlockSealed);

    var numOfNodesThatCanBeDown := GoDiv(|sealers| - 1, 3);
    if numNodesDown >= numOfNodesThatCanBeDown {
      return true, Some(ThresholdReached(numOfNodesThatCanBeDown, numNodesDown));
    }
    return true, None;
  }

  /** max is the larger of zero and the largest count. */
  ghost predicate IsMax(sealers: map<string, int>, max: int) {
    && 0 <= max
    && (forall v :: v in sealers ==> sealers[v] <= max)
    && (max == 0 || exists v :: v in sealers && sealers[v] == max)
  }

  method MaxBlockSealed(sealers: map<string, int>) returns (max: int)
    ensures IsMax(sealers, max)
  {
    max := 0;
    var todo := sealers.Keys;
    while todo != {}
      invariant todo <= sealers.Keys
      invariant forall v :: v in sealers && v !in todo ==> sealers[v] <= max
      invariant max == 0 || exists v :: v in sealers && sealers[v] == max
      invariant 0 <= max
      decreases |todo|
    {
      var v :| v in todo;
      if sealers[v] > max {
        max := sealers[v];
      }
      todo := todo - {v};
    }
  }

  method NumNodesDown(sealers: map<string, int>, max: int) returns (down: nat)
    requires IsMax(sealers, max)
    ensures down == |CountedDown(sealers)|
  {
    down := 0;
    var todo := sealers.Keys;
    ghost var counted: set<string> := {};
    while todo != {}
      invariant todo <= sealers.Keys
      invariant down == |counted|
      invariant forall v :: v in counted <==> v in sealers && v !in todo && max - sealers[v] > 1
      decreases |todo|
    {
      var v :| v in todo;
      if max - sealers[v] > 1 {
        down := down + 1;
        counted := counted + {v};
      }
      todo := todo - {v};
    }
    BehindMax(sealers, max);
    assert counted == CountedDown(sealers);
  }

  lemma BehindMax(sealers: map<string, int>, max: int)
    requires IsMax(sealers, max)
    ensures forall v :: v in sealers ==> (Behind(sealers, v) <==> max - sealers[v] > 1)
  {
  }

  /** A window of numBlocks blocks, each sealed by one of the validators. */
  ghost predicate Window(activity: SealActivity) {
    && (forall v :: v in activity.sealers ==> activity.sealers[v] >= 0)
    && Sum(activity.sealers) == activity.numBlocks
  }

  /** The live validators take turns: their counts differ by at most one, and
      the silent ones sealed nothing. */
  ghost predicate TakeTurns(sealers: map<string, int>, silent: set<string>) {
    && silent <= sealers.Keys
    && (forall v :: v in silent ==> sealers[v] == 0)
    && (forall u, v :: u in sealers.Keys - silent && v in sealers.Keys - silent ==> sealers[u] - sealers[v] <= 1)
  }

  /** When the live validators take turns, detection is exact once the window
      is longer than their number; before that nobody is counted down. */
  lemma DetectionIsExact(activity: SealActivity, silent: set<string>)
    requires Window(activity) && TakeTurns(activity.sealers, silent)
    ensures CountedDown(activity.sealers) ==
            if activity.numBlocks > |activity.sealers| - |silent| then silent else {}
  {
    var m := activity.sealers;
    var live := m.Keys - silent;
    assert m.Keys == live + silent && |m| == |m.Keys|;
    if top :| top in live && m[top] > 1 {
      ExceedsLive(m, live, top);
      AheadOfSilent(m, silent, top);
    } else {
      SumBounds(m, live, 0, 1);
      assert CountedDown(m) == {};
    }
  }

  lemma AheadOfSilent(m: map<string, int>, silent: set<string>, top: string)
    requires TakeTurns(m, silent) && top in m.Keys - silent && m[top] > 1
    ensures CountedDown(m) == silent
  {
    forall v | v in silent ensures Behind(m, v) {
      assert m[top] - m[v] > 1;
    }
    assert forall v :: v in m && v !in silent ==> !Behind(m, v);
  }

  /** One validator with two blocks, and one at least for each other live one. */
  lemma ExceedsLive(m: map<string, int>, live: set<string>, top: string)
    requires live <= m.Keys && top in live && m[top] > 1
    requires forall v :: v in live ==> m[v] >= 1
    requires forall v :: v in m && v !in live ==> m[v] == 0
    ensures Sum(m) > |live|
  {
    SumRemove(m, top);
    AtLeastOneEach(m - {top}, live - {top});
    assert |live - {top}| == |live| - 1;
  }

  lemma AtLeastOneEach(m: map<string, int>, live: set<string>)
    requires live <= m.Keys
    requires forall v :: v in live ==> m[v] >= 1
    requires forall v :: v in m && v !in live ==> m[v] == 0
    ensures Sum(m) >= |live|
  {
    var top := Largest(m);
    SumBounds(m, live, 1, if top < 1 then 1 else top);
  }

  lemma {:induction false} Largest(m: map<string, int>) returns (top: int)
    ensures forall v :: v in m ==> m[v] <= top
    decreases |m|
  {
    if m == map[] {
      top := 0;
    } else {
      var v :| v in m;
      RemoveShrinks(m, v);
      top := Largest(m - {v});
      assert forall u :: u in m && u != v ==> u in m - {v};
      top := if m[v] > top then m[v] else top;
    }
  }

  /** The validators that sealed no block of the window. */
  ghost function Silent(sealers: map<string, int>): set<string> {
    set v | v in sealers && sealers[v] == 0
  }

  /** Pigeonhole: if the window holds as many blocks as there are validators,
      one that sealed nothing is counted down, however the blocks are spread. */
  lemma LongWindowSeesSilent(activity: SealActivity)
    requires Window(activity) && activity.numBlocks >= |activity.sealers|
    ensures Silent(activity.sealers) <= CountedDown(activity.sealers)
  {
    var m := activity.sealers;
    forall v | v in Silent(m) ensures v in CountedDown(m) {
      if forall u :: u in m ==> m[u] <= 1 {
        SumRemove(m, v);
        RemoveShrinks(m, v);
        SumBounds(m - {v}, (m - {v}).Keys, 0, 1);
        assert false;
      }
    }
  }

  /** The window length the check needs, exactly: for a set of validators, every
      spread of numBlocks blocks over them reveals all the silent ones if and
      only if numBlocks is at least their number.  With 64-block windows that
      is the stated limit of 64 validators. */
  lemma WindowBound(validators: set<string>, numBlocks: nat)
    ensures (forall a: SealActivity :: Window(a) && a.sealers.Keys == validators && a.numBlocks == numBlocks
               ==> Silent(a.sealers) <= CountedDown(a.sealers))
            <==> numBlocks >= |validators|
  {
    if numBlocks >= |validators| {
      forall a: SealActivity | Window(a) && a.sealers.Keys == validators && a.numBlocks == numBlocks
        ensures Silent(a.sealers) <= CountedDown(a.sealers)
      {
        assert |a.sealers| == |a.sealers.Keys|;
        LongWindowSeesSilent(a);
      }
    } else {
      var a, missed := SpreadHides(validators, numBlocks);
    }
  }

  /** With fewer blocks than validators, one block each hides the others. */
  lemma SpreadHides(validators: set<string>, numBlocks: nat) returns (a: SealActivity, missed: string)
    requires numBlocks < |validators|
    ensures Window(a) && a.sealers.Keys == validators && a.numBlocks == numBlocks
    ensures missed in Silent(a.sealers) && missed !in CountedDown(a.sealers)
  {
    var busy := SubsetOfSize(validators, numBlocks);
    var sealers := map v | v in validators :: if v in busy then 1 else 0;
    SumBounds(sealers, busy, 1, 1);
    a := SealActivity(numBlocks, sealers);
    assert validators == busy + (validators - busy);
    missed :| missed in validators - busy;
    assert forall u :: u in sealers ==> 0 <= sealers[u] <= 1;
  }

  // ---- How long a silent validator stays undetected ------------------------

  /** The report on a window of blocks. */
  function Report(blocks: seq<string>, validators: set<string>): SealActivity {
    SealActivity(|blocks|, Tally(blocks, validators))
  }

  /** The delay of detection: after 2N - 1 blocks without v, some other validator
      leads v by two, in every window that reaches back so far and rotated before. */
  lemma SilenceShows(ring: seq<string>, live: set<string>, turns: seq<nat>, blocks: seq<string>, v: string, k: nat)
    requires FallsSilent(ring, live, turns, blocks, v, k) && NobodyReturned(live, blocks, k)
    requires k >= 2 * |ring| - 1
    ensures v in CountedDown(Report(blocks, Names(ring)).sealers)
  {
    var n := |blocks| - k;
    NamesCount(ring);
    var u := SomeoneSealsMore(blocks[n..], Names(ring), v, 2);
    FairShare(ring, live, turns[..n], blocks[..n], u, v);
    LeaderShows(blocks, Names(ring), k, u, v);
  }

  lemma LeaderShows(blocks: seq<string>, validators: set<string>, k: nat, u: string, v: string)
    requires k <= |blocks| && u in validators && v in validators && v !in blocks[|blocks| - k..]
    requires Count(blocks[|blocks| - k..], u) > 2
    requires Count(blocks[..|blocks| - k], v) <= Count(blocks[..|blocks| - k], u) + 1
    ensures v in CountedDown(Tally(blocks, validators))
  {
    SplitCount(blocks, k, u);
    SplitCount(blocks, k, v);
    CountZero(blocks[|blocks| - k..], v);
    var m := Tally(blocks, validators);
    assert m[u] - m[v] > 1;
  }

  /** If others did come back meanwhile, 3(N - 1) blocks still suffice, as long as
      one validator was live all along. */
  lemma SilenceShowsDespiteReturns(ring: seq<string>, a: string, turns: seq<nat>, blocks: seq<string>, v: string,
                                   k: nat)
    requires Distinct(ring) && a in ring && v in ring && a != v && k <= |blocks|
    requires Rotates(ring, {a}, turns, blocks) && v !in blocks[|blocks| - k..]
    requires k >= 3 * (|ring| - 1)
    ensures v in CountedDown(Report(blocks, Names(ring)).sealers)
  {
    var n := |blocks| - k;
    RotatesWithin(ring, a, turns, blocks, n);
    FairShare(ring, {a}, turns[..n], blocks[..n], a, v);
    SteadySealsThree(ring, a, turns[n..], blocks[n..], v);
    LeaderShows(blocks, Names(ring), k, a, v);
  }

  lemma RotatesWithin(ring: seq<string>, a: string, turns: seq<nat>, blocks: seq<string>, n: nat)
    requires Rotates(ring, {a}, turns, blocks) && n <= |blocks|
    ensures Rotates(ring, {a}, turns[..n], blocks[..n]) && Rotates(ring, {a}, turns[n..], blocks[n..])
  {
    forall h | 0 <= h < |blocks| - n - 1 ensures PassesTurn(ring, {a}, turns[n..][h], turns[n..][h + 1]) {
      assert PassesTurn(ring, {a}, turns[n + h], turns[n + h + 1]);
    }
  }

  /** In 3(N - 1) blocks without v, whoever is never skipped seals three. */
  lemma SteadySealsThree(ring: seq<string>, a: string, turns: seq<nat>, blocks: seq<string>, v: string)
    requires Distinct(ring) && a in ring && v in ring && a != v
    requires Rotates(ring, {a}, turns, blocks) && v !in blocks && |blocks| >= 3 * (|ring| - 1)
    ensures Count(blocks, a) > 2
  {
    var m, others := Tally(blocks, Names(ring)), Names(ring) - {a, v};
    NamesCount(ring);
    assert |others| == |ring| - 2;
    if m[a] <= 2 {
      forall w | w in others ensures m[w] <= 3 {
        FairShare(ring, {a}, turns, blocks, a, w);
      }
      CountZero(blocks, v);
      TallySums(blocks, Names(ring));
      SumRemove(m, a);
      SumBounds(m - {a}, others, 0, 3);
    }
  }

  /** The slowest detection: v seals first and last of one full round, and then
      the others twice each, short of the last block. */
  lemma SlowestWindow(ring: seq<string>, k: nat) returns (turns: seq<nat>, blocks: seq<string>, v: string)
    requires Distinct(ring) && ring != [] && k <= 2 * |ring| - 2
    ensures FallsSilent(ring, Names(ring), turns, blocks, v, k) && NobodyReturned(Names(ring), blocks, k)
    ensures Rotates(ring, Names(ring) - {v}, turns, blocks)
    ensures v !in CountedDown(Report(blocks, Names(ring)).sealers)
  {
    var w := |ring| + 1 + k;
    v := ring[|ring| - 1];
    turns := SlowestTurns(|ring|, w);
    blocks := BlocksAt(ring, turns);
    SlowestFalls(ring, turns, blocks, k);
    SlowestParts(ring, blocks, k);
    SlowestCounts(ring, blocks, k);
  }

  function SlowestTurns(n: nat, w: nat): (turns: seq<nat>)
    requires n > 0 && w <= 3 * n - 1
    ensures |turns| == w && forall h :: 0 <= h < w ==> turns[h] == SlowestTurn(n, h)
  {
    seq(w, h requires 0 <= h < w => SlowestTurn(n, h))
  }

  lemma SlowestFalls(ring: seq<string>, turns: seq<nat>, blocks: seq<string>, k: nat)
    requires Distinct(ring) && ring != [] && k <= 2 * |ring| - 2 && |turns| == |blocks| == |ring| + 1 + k
    requires forall h :: 0 <= h < |turns| ==> turns[h] == SlowestTurn(|ring|, h) && blocks[h] == ring[turns[h]]
    ensures FallsSilent(ring, Names(ring), turns, blocks, ring[|ring| - 1], k) && NobodyReturned(Names(ring), blocks, k)
    ensures Rotates(ring, Names(ring) - {ring[|ring| - 1]}, turns, blocks)
  {
    SlowestRotates(ring, turns, blocks);
    SlowestParts(ring, blocks, k);
    assert |blocks| - k == |ring| + 1;
  }

  lemma SlowestParts(ring: seq<string>, blocks: seq<string>, k: nat)
    requires Distinct(ring) && ring != [] && k <= 2 * |ring| - 2 && |blocks| == |ring| + 1 + k
    requires forall h :: 0 <= h < |blocks| ==> blocks[h] == ring[SlowestTurn(|ring|, h)]
    ensures blocks[..|ring| + 1] == [ring[|ring| - 1]] + ring
    ensures var others := ring[..|ring| - 1]; blocks[|ring| + 1..] == (others + others)[..k]
    ensures forall b :: b in blocks[|ring| + 1..] ==> b in ring && b != ring[|ring| - 1]
  {
    var n, late := |ring|, blocks[|ring| + 1..];
    forall h | 0 <= h < k
      ensures late[h] == ring[if h < n - 1 then h else h - n + 1] && late[h] in ring && late[h] != ring[n - 1]
    {
      assert late[h] == blocks[n + 1 + h];
    }
  }

  /** Who is at turn in block h of the slowest window. */
  function SlowestTurn(n: nat, h: nat): (i: nat)
    requires n > 0 && h < 3 * n - 1
    ensures i < n
  {
    if h == 0 then n - 1 else if h <= n then h - 1 else if h < 2 * n then h - n - 1 else h - 2 * n
  }

  lemma SlowestRotates(ring: seq<string>, turns: seq<nat>, blocks: seq<string>)
    requires Distinct(ring) && ring != [] && |ring| < |turns| == |blocks| <= 3 * |ring| - 1
    requires forall h :: 0 <= h < |turns| ==> turns[h] == SlowestTurn(|ring|, h) && blocks[h] == ring[turns[h]]
    ensures Rotates(ring, Names(ring), turns[..|ring| + 1], blocks[..|ring| + 1])
    ensures Rotates(ring, Names(ring) - {ring[|ring| - 1]}, turns, blocks)
  {
    var n := |ring|;
    var others := Names(ring) - {ring[n - 1]};
    forall h | 0 <= h < |blocks| - 1
      ensures h < n ==> PassesTurn(ring, Names(ring), turns[h], turns[h + 1])
      ensures PassesTurn(ring, others, turns[h], turns[h + 1])
    {
      if turns[h] == n - 2 && turns[h + 1] == 0 && n > 1 {
        assert Around(turns[h], 2, n) == 0 && Ahead(ring, turns[h], 1) !in others;
      } else {
        assert turns[h + 1] == Around(turns[h], 1, n);
      }
    }
  }

  lemma SlowestCounts(ring: seq<string>, blocks: seq<string>, k: nat)
    requires Distinct(ring) && ring != [] && |blocks| == |ring| + 1 + k
    requires blocks[..|ring| + 1] == [ring[|ring| - 1]] + ring
    requires var others := ring[..|ring| - 1]; k <= 2 * |others| && blocks[|ring| + 1..] == (others + others)[..k]
    ensures ring[|ring| - 1] !in CountedDown(Tally(blocks, Names(ring)))
  {
    var v, others, m := ring[|ring| - 1], ring[..|ring| - 1], Tally(blocks, Names(ring));
    forall u | u in Names(ring) ensures if u == v then m[u] >= 2 else m[u] <= 3 {
      SplitCount(blocks, k, u);
      CountConcat([v], ring, u);
      CountDistinct(ring, u);
      CountDistinct([v], u);
      CountDistinct(others, u);
      CountConcat(others, others, u);
      PrefixCount(others + others, k, u);
    }
  }

  /** The delay is exact: in every window of every rotation a validator silent
      for k blocks is counted down if and only if k is at least 2N - 1. */
  lemma SilenceBound(ring: seq<string>, k: nat)
    requires Distinct(ring) && ring != []
    ensures (forall live: set<string>, turns: seq<nat>, blocks: seq<string>, v: string ::
               FallsSilent(ring, live, turns, blocks, v, k) && NobodyReturned(live, blocks, k)
               ==> v in CountedDown(Report(blocks, Names(ring)).sealers))
            <==> k >= 2 * |ring| - 1
  {
    if k >= 2 * |ring| - 1 {
      forall live: set<string>, turns: seq<nat>, blocks: seq<string>, v: string |
        FallsSilent(ring, live, turns, blocks, v, k) && NobodyReturned(live, blocks, k)
        ensures v in CountedDown(Report(blocks, Names(ring)).sealers)
      {
        SilenceShows(ring, live, turns, blocks, v, k);
      }
    } else {
      var turns, blocks, v := SlowestWindow(ring, k);
    }
  }

  // ---- The delay when validators come back ---------------------------------

  /** Who is at turn in block h when v and a alone take turns at first, and then
      all but v, three times around. */
  function ReturnTurn(n: nat, h: nat): (i: nat)
    requires n >= 2 && h < 3 * n - 1
    ensures i < n
  {
    var m := n - 1;
    if h == 0 || h == 2 then m
    else if h == 1 then m - 1
    else if h < 3 + m then h - 3
    else if h < 3 + 2 * m then h - 3 - m
    else h - 3 - 2 * m
  }

  function ReturnTurns(n: nat, w: nat): (turns: seq<nat>)
    requires n >= 2 && w <= 3 * n - 1
    ensures |turns| == w && forall h :: 0 <= h < w ==> turns[h] == ReturnTurn(n, h)
  {
    seq(w, h requires 0 <= h < w => ReturnTurn(n, h))
  }

  lemma ReturnRotates(ring: seq<string>, turns: seq<nat>, blocks: seq<string>)
    requires Distinct(ring) && |ring| >= 2 && |turns| == |blocks| <= 3 * |ring| - 1
    requires forall h :: 0 <= h < |turns| ==> turns[h] == ReturnTurn(|ring|, h) && blocks[h] == ring[turns[h]]
    ensures Rotates(ring, {ring[|ring| - 2]}, turns, blocks)
  {
    var n := |ring|;
    var steady := {ring[n - 2]};
    forall h | 0 <= h < |blocks| - 1 ensures PassesTurn(ring, steady, turns[h], turns[h + 1]) {
      if h == 0 {
        assert Around(turns[h], n - 1, n) == turns[h + 1];
        assert forall e: nat :: 0 < e < n - 1 ==> Around(turns[h], e, n) == e - 1;
      } else if turns[h] == n - 2 && turns[h + 1] == 0 {
        assert Around(turns[h], 2, n) == 0 && Ahead(ring, turns[h], 1) == ring[n - 1];
      } else {
        assert turns[h + 1] == Around(turns[h], 1, n);
      }
    }
  }

  lemma ReturnParts(ring: seq<string>, blocks: seq<string>, k: nat)
    requires |ring| >= 2 && k <= 3 * |ring| - 4 && |blocks| == k + 3
    requires forall h :: 0 <= h < |blocks| ==> blocks[h] == ring[ReturnTurn(|ring|, h)]
    ensures blocks[..3] == [ring[|ring| - 1], ring[|ring| - 2], ring[|ring| - 1]]
    ensures var others := ring[..|ring| - 1]; blocks[3..] == (others + others + others)[..k]
  {
  }

  /** In three rounds short of the last block, a seals two and the others three. */
  lemma ReturnLate(ring: seq<string>, k: nat, u: string)
    requires Distinct(ring) && |ring| >= 2 && k <= 3 * |ring| - 4 && u in ring
    ensures var others := ring[..|ring| - 1];
            Count((others + others + others)[..k], u) <=
            if u == ring[|ring| - 1] then 0 else if u == ring[|ring| - 2] then 2 else 3
  {
    var others, m := ring[..|ring| - 1], |ring| - 1;
    var thrice := others + others + others;
    CountDistinct(others, u);
    CountConcat(others, others, u);
    CountConcat(others + others, others, u);
    PrefixCount(thrice, k, u);
    var last := thrice[3 * m - 1..];
    assert last == [ring[m - 1]] && thrice[k..] == thrice[k..3 * m - 1] + last;
    CountConcat(thrice[k..3 * m - 1], last, u);
    CountDistinct(last, u);
  }

  /** The slowest detection with returns: only v and a are there at first, and v
      stops when the others come back. */
  lemma SlowestReturn(ring: seq<string>, k: nat) returns (a: string, turns: seq<nat>, blocks: seq<string>, v: string)
    requires Distinct(ring) && |ring| >= 2 && k <= 3 * |ring| - 4
    ensures a in ring && v in ring && a != v && k <= |blocks|
    ensures Rotates(ring, {a}, turns, blocks) && v !in blocks[|blocks| - k..]
    ensures v !in CountedDown(Report(blocks, Names(ring)).sealers)
  {
    a, v := ring[|ring| - 2], ring[|ring| - 1];
    turns := ReturnTurns(|ring|, k + 3);
    blocks := BlocksAt(ring, turns);
    ReturnRotates(ring, turns, blocks);
    ReturnParts(ring, blocks, k);
    ReturnCounts(ring, blocks, k);
  }

  lemma ReturnCounts(ring: seq<string>, blocks: seq<string>, k: nat)
    requires Distinct(ring) && |ring| >= 2 && k <= 3 * |ring| - 4 && |blocks| == k + 3
    requires blocks[..3] == [ring[|ring| - 1], ring[|ring| - 2], ring[|ring| - 1]]
    requires var others := ring[..|ring| - 1]; blocks[3..] == (others + others + others)[..k]
    ensures ring[|ring| - 1] !in CountedDown(Tally(blocks, Names(ring))) && ring[|ring| - 1] !in blocks[3..]
  {
    var v, a, m := ring[|ring| - 1], ring[|ring| - 2], Tally(blocks, Names(ring));
    forall u | u in Names(ring) ensures if u == v then m[u] >= 2 else m[u] <= 3 {
      SplitCount(blocks, k, u);
      ReturnLate(ring, k, u);
      assert blocks[..3] == [v] + [a] + [v];
      CountConcat([v] + [a], [v], u);
      CountConcat([v], [a], u);
      CountDistinct([v], u);
      CountDistinct([a], u);
    }
  }

  /** The delay is exact when validators come back, too: with one validator live
      throughout, k silent blocks are enough if and only if k is at least 3(N - 1). */
  lemma ReturnBound(ring: seq<string>, k: nat)
    requires Distinct(ring) && |ring| >= 2
    ensures (forall a: string, turns: seq<nat>, blocks: seq<string>, v: string ::
               a in ring && v in ring && a != v && k <= |blocks| && Rotates(ring, {a}, turns, blocks)
               && v !in blocks[|blocks| - k..]
               ==> v in CountedDown(Report(blocks, Names(ring)).sealers))
            <==> k >= 3 * (|ring| - 1)
  {
    if k >= 3 * (|ring| - 1) {
      forall a: string, turns: seq<nat>, blocks: seq<string>, v: string |
        a in ring && v in ring && a != v && k <= |blocks| && Rotates(ring, {a}, turns, blocks)
        && v !in blocks[|blocks| - k..]
        ensures v in CountedDown(Report(blocks, Names(ring)).sealers)
      {
        SilenceShowsDespiteReturns(ring, a, turns, blocks, v, k);
      }
    } else {
      var a, turns, blocks, v := SlowestReturn(ring, k);
    }
  }

  /** When exactly the validators in `up` take turns, the report counts the others. */
  lemma TurnsReport(ring: seq<string>, up: set<string>, turns: seq<nat>, blocks: seq<string>)
    requires Distinct(ring) && up <= Names(ring) && Rotates(ring, up, turns, blocks) && |blocks| > |up|
    requires forall b :: b in blocks ==> b in up
    ensures CountedDown(Report(blocks, Names(ring)).sealers) == Names(ring) - up
    ensures Accepts(Report(blocks, Names(ring))) <==> |Names(ring) - up| < Allowed(|Names(ring)|)
  {
    var a, silent := Report(blocks, Names(ring)), Names(ring) - up;
    TurnsAreEven(ring, up, turns, blocks);
    TallySums(blocks, Names(ring));
    SplitSize(up, Names(ring));
    assert a.sealers.Keys == Names(ring) && |a.sealers| == |a.sealers.Keys|;
    DetectionIsExact(a, silent);
  }

  lemma TurnsAreEven(ring: seq<string>, up: set<string>, turns: seq<nat>, blocks: seq<string>)
    requires Distinct(ring) && up <= Names(ring) && Rotates(ring, up, turns, blocks)
    requires forall b :: b in blocks ==> b in up
    ensures TakeTurns(Tally(blocks, Names(ring)), Names(ring) - up)
  {
    forall v | v in Names(ring) - up ensures Count(blocks, v) == 0 {
      CountZero(blocks, v);
    }
    forall u, v | u in up && v in up ensures Count(blocks, u) - Count(blocks, v) <= 1 {
      if u != v {
        FairShare(ring, up, turns, blocks, v, u);
      }
    }
  }
}
