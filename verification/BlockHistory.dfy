/** How snapshots come about: members seal blocks in turn and on time, and what a
    client reports of them tells who has stopped, soon enough for the network to
    keep its quorum. */
module BlockHistory {
  import opened Basics
  import opened Quorum
  import opened Rotation
  import opened Hibernation
  import Istanbul
  import GoQuorumClique
  import BesuClique
  import Raft

  // ---- From block times to the lag -----------------------------------------

  /** Blocks keep coming: at most one period lies between two of them, and
      between the last one and now. */
  ghost predicate Punctual(times: seq<nat>, now: nat, period: nat) {
    && (forall h :: 0 <= h < |times| - 1 ==> times[h + 1] <= times[h] + period)
    && (times != [] ==> now <= times[|times| - 1] + period)
  }

  /** Who is down has sealed no block since. */
  ghost predicate DownSealNothing(s: NetState, blocks: seq<string>, times: seq<nat>)
    requires |blocks| == |times|
  {
    forall h :: 0 <= h < |blocks| && blocks[h] in s.down ==> times[h] < s.down[blocks[h]]
  }

  lemma {:induction false} RecentTimes(times: seq<nat>, now: nat, period: nat, j: nat)
    requires Punctual(times, now, period) && 1 <= j <= |times|
    ensures now <= times[|times| - j] + j * period
    decreases j
  {
    if j > 1 {
      RecentTimes(times, now, period, j - 1);
      assert times[|times| - j + 1] <= times[|times| - j] + period;
      TimesOneLess(period, j);
    }
  }

  /** If the lag covers k periods, stale members have sealed none of the last k blocks. */
  lemma StaleAreSilent(c: Config, s: NetState, blocks: seq<string>, times: seq<nat>, period: nat, k: nat)
    requires |blocks| == |times| && k <= |blocks| && k * period <= c.timing.lag
    requires Punctual(times, s.now, period) && DownSealNothing(s, blocks, times)
    ensures forall q :: q in Stale(c, s) ==> q !in blocks[|blocks| - k..]
  {
    forall h | |blocks| - k <= h < |blocks| ensures blocks[h] !in Stale(c, s) {
      var j := |blocks| - h;
      RecentTimes(times, s.now, period, j);
      MulMonotone(period, j, k);
    }
  }

  /** A stretch of blocks up to now: at whose place, by whom and when each was sealed. */
  datatype History = History(turns: seq<nat>, blocks: seq<string>, times: seq<nat>)

  /** The members, in the order of turns, sealed these blocks, at least one each
      period; the lag covers the last k. */
  ghost predicate Recorded(c: Config, s: NetState, ring: seq<string>, h: History, period: nat, k: nat) {
    && Distinct(ring) && Names(ring) == c.members
    && |h.turns| == |h.blocks| == |h.times| && (forall b :: b in h.blocks ==> b in ring)
    && Punctual(h.times, s.now, period) && DownSealNothing(s, h.blocks, h.times)
    && k <= |h.blocks| && k * period <= c.timing.lag
  }

  /** Before the last k blocks no live member was skipped. */
  ghost predicate RotatedBefore(ring: seq<string>, live: set<string>, h: History, k: nat)
    requires k <= |h.blocks| == |h.turns|
  {
    var n := |h.blocks| - k;
    Rotates(ring, live, h.turns[..n], h.blocks[..n])
  }

  lemma StaleFallSilent(c: Config, s: NetState, ring: seq<string>, live: set<string>, h: History, period: nat, k: nat)
    requires Recorded(c, s, ring, h, period, k) && RotatedBefore(ring, live, h, k)
    ensures forall v :: v in Stale(c, s) ==> FallsSilent(ring, live, h.turns, h.blocks, v, k)
  {
    StaleAreSilent(c, s, h.blocks, h.times, period, k);
    forall b | b in h.blocks[|h.blocks| - k..] ensures b in ring {
      assert b in h.blocks;
    }
  }

  /** Istanbul: on a window that rotated, a lag of 2N - 1 block periods makes the
      report on it faithful, in any state of the network. */
  lemma IstanbulLag(c: Config, s: NetState, ring: seq<string>, live: set<string>, h: History, period: nat, k: nat)
    requires Recorded(c, s, ring, h, period, k) && k >= 2 * |ring| - 1
    requires RotatedBefore(ring, live, h, k) && NobodyReturned(live, h.blocks, k)
    ensures IstanbulSeen(Istanbul.Report(h.blocks, c.members)).Faithful(c.members, Stale(c, s))
  {
    StaleFallSilent(c, s, ring, live, h, period, k);
    IstanbulReportIsFaithful(ring, live, h.turns, h.blocks, k, Stale(c, s));
  }

  /** The same with validators that come back, for 3(N - 1) block periods, if one
      that is up now was never skipped. */
  lemma IstanbulLagDespiteReturns(c: Config, s: NetState, ring: seq<string>, a: string, h: History, period: nat, k: nat)
    requires Recorded(c, s, ring, h, period, k) && k >= 3 * (|ring| - 1)
    requires a in ring && a !in s.down && Rotates(ring, {a}, h.turns, h.blocks)
    ensures IstanbulSeen(Istanbul.Report(h.blocks, c.members)).Faithful(c.members, Stale(c, s))
  {
    StaleAreSilent(c, s, h.blocks, h.times, period, k);
    IstanbulReportIsFaithfulDespiteReturns(ring, a, h.turns, h.blocks, k, Stale(c, s));
  }

  /** v's share of the window exceeds by two what it can have sealed before the last k blocks. */
  ghost predicate ShareShows(ring: seq<string>, live: set<string>, h: History, k: nat, v: string)
    requires k <= |h.blocks| && ring != []
  {
    GoQuorumClique.MostBefore(|h.blocks| - k, |live - {v}|) + 2 <= |h.blocks| / |ring|
  }

  /** GoQuorum Clique: k block periods, if each stale sealer's share of the window
      exceeds by two what it can have sealed before the last k blocks. */
  lemma GoQuorumCliqueLag(c: Config, s: NetState, ring: seq<string>, live: set<string>, h: History, period: nat, k: nat)
    requires Recorded(c, s, ring, h, period, k) && ring != []
    requires live <= c.members && RotatedBefore(ring, live, h, k)
    requires forall v :: v in Stale(c, s) ==> ShareShows(ring, live, h, k, v)
    ensures GoQuorumCliqueSeen(GoQuorumClique.Report(h.blocks, c.members)).Faithful(c.members, Stale(c, s))
  {
    StaleFallSilent(c, s, ring, live, h, period, k);
    GoQuorumCliqueReportIsFaithful(ring, live, h.turns, h.blocks, k, Stale(c, s));
  }

  /** So 3N - 1 block periods for a sealer that is stale while all others are live,
      however long it has been down. */
  lemma GoQuorumCliqueLagOfOne(c: Config, s: NetState, ring: seq<string>, v: string, h: History, period: nat, k: nat)
    requires Recorded(c, s, ring, h, period, k) && k >= 3 * |ring| - 1 && v in ring && Stale(c, s) <= {v}
    requires RotatedBefore(ring, c.members - {v}, h, k)
    ensures GoQuorumCliqueSeen(GoQuorumClique.Report(h.blocks, c.members)).Faithful(c.members, Stale(c, s))
  {
    var others := c.members - {v};
    NamesCount(ring);
    assert others - {v} == others && |others| == |ring| - 1;
    GoQuorumClique.DelayAmongLive(|h.blocks|, k, |ring|);
    GoQuorumCliqueLag(c, s, ring, others, h, period, k);
  }

  /** Besu Clique: N + 1 block periods, whoever seals the blocks. */
  lemma BesuCliqueLag(c: Config, s: NetState, signers: seq<string>, chain: BesuClique.Chain, times: seq<nat>,
                      period: nat, window: nat)
    requires Names(signers) == c.members && |signers| == |c.members| < |chain| - 1 && |times| == |chain|
    requires Punctual(times, s.now, period) && DownSealNothing(s, chain, times)
    requires (|signers| + 1) * period <= c.timing.lag
    ensures BesuCliqueSeen(|chain| - 1, signers, BesuClique.MetricsOf(chain, signers, window))
            .Faithful(c.members, Stale(c, s))
  {
    var k := |signers| + 1;
    StaleAreSilent(c, s, chain, times, period, k);
    forall v, h | v in Stale(c, s) && |chain| - k <= h < |chain| ensures chain[h] != v {
      assert chain[h] == chain[|chain| - k..][h - (|chain| - k)];
    }
    ChainReportIsFaithful(chain, signers, window, Stale(c, s));
  }

  // ---- From blocks to the quorum -------------------------------------------

  /** What a client's report rests on.  Raft keeps track of its members itself. */
  datatype Ledger =
    | Rotating(ring: seq<string>, live: set<string>, h: History, k: nat)
    | Returning(ring: seq<string>, steady: string, h: History, k: nat)
    | Chained(chain: BesuClique.Chain, signers: seq<string>, times: seq<nat>, window: nat)
    | Tracked(cluster: seq<Raft.ClusterEntry>)

  /** The observation is what the member's client reports of this ledger. */
  ghost predicate Grounds(c: Config, s: NetState, period: nat, l: Ledger, o: Observation) {
    match l
    case Rotating(ring, live, h, k) =>
      && Recorded(c, s, ring, h, period, k) && RotatedBefore(ring, live, h, k)
      && (match c.engine
          case IstanbulEngine =>
            && o == IstanbulSeen(Istanbul.Report(h.blocks, c.members))
            && k >= 2 * |ring| - 1 && NobodyReturned(live, h.blocks, k)
          case GoQuorumCliqueEngine =>
            && o == GoQuorumCliqueSeen(GoQuorumClique.Report(h.blocks, c.members))
            && ring != [] && live <= c.members
            && (forall v :: v in Stale(c, s) ==> ShareShows(ring, live, h, k, v))
          case _ => false)
    case Returning(ring, steady, h, k) =>
      && c.engine.IstanbulEngine? && o == IstanbulSeen(Istanbul.Report(h.blocks, c.members))
      && Recorded(c, s, ring, h, period, k) && k >= 3 * (|ring| - 1)
      && steady in ring && steady !in s.down && Rotates(ring, {steady}, h.turns, h.blocks)
    case Chained(chain, signers, times, window) =>
      && c.engine.BesuCliqueEngine?
      && o == BesuCliqueSeen(|chain| - 1, signers, BesuClique.MetricsOf(chain, signers, window))
      && Names(signers) == c.members && |signers| == |c.members| < |chain| - 1 && |times| == |chain|
      && Punctual(times, s.now, period) && DownSealNothing(s, chain, times)
      && (|signers| + 1) * period <= c.timing.lag
    case Tracked(cluster) =>
      && c.engine.RaftEngine? && o == RaftSeen(cluster) && |cluster| == |c.members|
      && forall v :: v in Stale(c, s) ==> o.ShowsSilent(c.members, v)
  }

  lemma GroundedIsFaithful(c: Config, s: NetState, period: nat, l: Ledger, o: Observation)
    requires Grounds(c, s, period, l, o)
    ensures o.Engine() == c.engine && o.Faithful(c.members, Stale(c, s))
  {
    match l
    case Rotating(ring, live, h, k) =>
      if c.engine.IstanbulEngine? {
        IstanbulLag(c, s, ring, live, h, period, k);
      } else {
        GoQuorumCliqueLag(c, s, ring, live, h, period, k);
      }
    case Returning(ring, steady, h, k) => IstanbulLagDespiteReturns(c, s, ring, steady, h, period, k);
    case Chained(chain, signers, times, window) => BesuCliqueLag(c, s, signers, chain, times, period, window);
    case Tracked(cluster) => SilentReportIsFaithful(o, c.members, Stale(c, s));
  }

  /** The same events, but nothing is assumed of a member's snapshot save that it
      is the report of some ledger. */
  ghost predicate PossibleOnBlocks(c: Config, s: NetState, period: nat, v: Event)
    requires c.net.Valid() && s.phase.Keys == c.net.nodes
  {
    match v
    case Snapshot(p, o) =>
      && p in s.phase && s.phase[p].Resting? && p !in s.snapshot && p !in s.down
      && (p in c.members ==> p !in c.strict && o.Accepts() && exists l: Ledger :: Grounds(c, s, period, l, o))
    case _ => Possible(c, s, v)
  }

  ghost function AtOnBlocks(c: Config, period: nat, run: seq<Event>): (r: Option<NetState>)
    requires c.net.Valid()
    ensures r.Some? ==> r.value.phase.Keys == c.net.nodes
    decreases |run|
  {
    if run == [] then Some(Start(c)) else
      match AtOnBlocks(c, period, run[..|run| - 1])
      case None => None
      case Some(s) =>
        if PossibleOnBlocks(c, s, period, run[|run| - 1]) then Some(Next(c, s, run[|run| - 1])) else None
  }

  lemma PossibleAnyway(c: Config, s: NetState, period: nat, v: Event)
    requires c.net.Valid() && s.phase.Keys == c.net.nodes && PossibleOnBlocks(c, s, period, v)
    ensures Possible(c, s, v)
  {
    if v.Snapshot? && v.p in c.members {
      var l: Ledger :| Grounds(c, s, period, l, v.o);
      GroundedIsFaithful(c, s, period, l, v.o);
    }
  }

  lemma {:induction false} BlockRunsAreRuns(c: Config, period: nat, run: seq<Event>)
    requires c.net.Valid() && AtOnBlocks(c, period, run).Some?
    ensures At(c, run) == AtOnBlocks(c, period, run)
    decreases |run|
  {
    if run != [] {
      var front := run[..|run| - 1];
      BlockRunsAreRuns(c, period, front);
      PossibleAnyway(c, AtOnBlocks(c, period, front).value, period, run[|run| - 1]);
    }
  }

  /** Main result, end to end: whenever the snapshots are reports of blocks that
      members seal in turn, one each period, and the lag they need fits with delay
      and polling into the hold, every run keeps the quorum. */
  lemma QuorumOnBlocks(c: Config, period: nat, run: seq<Event>)
    requires c.Valid() && c.timing.WithinHold() && AtOnBlocks(c, period, run).Some?
    ensures QuorumKept(c, AtOnBlocks(c, period, run).value)
  {
    BlockRunsAreRuns(c, period, run);
    RunsKeepNetInv(c, run);
  }

  /** The members that are up took all turns, and none of them was skipped. */
  ghost predicate UpTookTurns(c: Config, s: NetState, ring: seq<string>, h: History) {
    var up := c.members - s.down.Keys;
    Rotates(ring, up, h.turns, h.blocks) && forall b :: b in h.blocks ==> b in up
  }

  /** Such reports are not hard to come by: in any state, if the validators that are
      up have taken turns, their report is grounded. */
  lemma TurnsGround(c: Config, s: NetState, ring: seq<string>, h: History, period: nat, k: nat)
    requires c.engine.IstanbulEngine? && Recorded(c, s, ring, h, period, k) && 2 * |ring| - 1 <= k
    requires UpTookTurns(c, s, ring, h)
    ensures Grounds(c, s, period, Rotating(ring, c.members - s.down.Keys, h, k),
                    IstanbulSeen(Istanbul.Report(h.blocks, c.members)))
  {
    var up, n := c.members - s.down.Keys, |h.blocks| - k;
    forall i | 0 <= i < n - 1 ensures PassesTurn(ring, up, h.turns[..n][i], h.turns[..n][i + 1]) {
      assert PassesTurn(ring, up, h.turns[i], h.turns[i + 1]);
    }
    forall b | b in h.blocks[n..] ensures b in up {
      assert b in h.blocks;
    }
  }

  /** And it counts exactly the hibernated validators, so that it is accepted while
      they are fewer than the limit: hibernation stays possible. */
  lemma TurnsCount(c: Config, s: NetState, ring: seq<string>, h: History, period: nat, k: nat)
    requires Recorded(c, s, ring, h, period, k) && |h.blocks| > |ring|
    requires UpTookTurns(c, s, ring, h)
    ensures var o := IstanbulSeen(Istanbul.Report(h.blocks, c.members));
            && o.CountedDown() == s.down.Keys * c.members
            && (o.Accepts() <==> |s.down.Keys * c.members| < Limit(IstanbulEngine, |c.members|))
  {
    var up := c.members - s.down.Keys;
    NamesCount(ring);
    SubsetSize(up, c.members);
    Istanbul.TurnsReport(ring, up, h.turns, h.blocks);
    assert c.members - up == Hibernated(c, s);
  }

  /** The same for GoQuorum Clique, in windows of two blocks for each sealer. */
  lemma CliqueTurnsGround(c: Config, s: NetState, ring: seq<string>, h: History, period: nat, k: nat)
    requires c.engine.GoQuorumCliqueEngine? && Recorded(c, s, ring, h, period, k) && UpTookTurns(c, s, ring, h)
    requires ring != []
    requires GoQuorumClique.MostBefore(|h.blocks| - k, |c.members - s.down.Keys|) + 2 <= |h.blocks| / |ring|
    ensures Grounds(c, s, period, Rotating(ring, c.members - s.down.Keys, h, k),
                    GoQuorumCliqueSeen(GoQuorumClique.Report(h.blocks, c.members)))
  {
    var up := c.members - s.down.Keys;
    TurnsBefore(ring, up, h, k);
    forall v | v in Stale(c, s) ensures ShareShows(ring, up, h, k, v) {
      assert up - {v} == up;
    }
  }

  /** And if validators came back, 3(N - 1) blocks ground it, as one that is up now was
      never skipped. */
  lemma ReturnsGround(c: Config, s: NetState, ring: seq<string>, a: string, h: History, period: nat, k: nat)
    requires c.engine.IstanbulEngine? && Recorded(c, s, ring, h, period, k) && k >= 3 * (|ring| - 1)
    requires a in ring && a !in s.down && Rotates(ring, {a}, h.turns, h.blocks)
    ensures exists l: Ledger :: Grounds(c, s, period, l, IstanbulSeen(Istanbul.Report(h.blocks, c.members)))
  {
    assert Grounds(c, s, period, Returning(ring, a, h, k), IstanbulSeen(Istanbul.Report(h.blocks, c.members)));
  }

  lemma TurnsBefore(ring: seq<string>, up: set<string>, h: History, k: nat)
    requires k <= |h.blocks| == |h.turns| && Rotates(ring, up, h.turns, h.blocks)
    ensures RotatedBefore(ring, up, h, k)
  {
    var n := |h.blocks| - k;
    forall i | 0 <= i < n - 1 ensures PassesTurn(ring, up, h.turns[..n][i], h.turns[..n][i + 1]) {
      assert PassesTurn(ring, up, h.turns[i], h.turns[i + 1]);
    }
  }

  lemma CliqueTurnsCount(c: Config, s: NetState, ring: seq<string>, h: History, period: nat, k: nat)
    requires Recorded(c, s, ring, h, period, k) && UpTookTurns(c, s, ring, h)
    requires ring != [] && |h.blocks| >= 2 * |ring|
    ensures var o := GoQuorumCliqueSeen(GoQuorumClique.Report(h.blocks, c.members));
            && o.CountedDown() == s.down.Keys * c.members
            && (o.Accepts() <==> 2 * (|s.down.Keys * c.members| + 1) < |c.members|)
  {
    NamesCount(ring);
    GoQuorumClique.TurnsReport(ring, c.members - s.down.Keys, h.turns, h.blocks);
    assert c.members - (c.members - s.down.Keys) == s.down.Keys * c.members;
  }

  /** For Besu Clique the ledger is any chain that came on time. */
  lemma ChainGrounds(c: Config, s: NetState, chain: BesuClique.Chain, ring: seq<string>, times: seq<nat>,
                     period: nat, window: nat)
    requires c.engine.BesuCliqueEngine? && Names(ring) == c.members && Distinct(ring)
    requires |ring| < |chain| - 1 && |times| == |chain|
    requires Punctual(times, s.now, period) && DownSealNothing(s, chain, times)
    requires (|ring| + 1) * period <= c.timing.lag
    ensures Grounds(c, s, period, Chained(chain, ring, times, window),
                    BesuCliqueSeen(|chain| - 1, ring, BesuClique.MetricsOf(chain, ring, window)))
  {
    NamesCount(ring);
  }

  // ---- And nothing less will do --------------------------------------------

  /** For Raft the ledger is the report, so that all runs are runs on ledgers. */
  lemma {:induction false} RaftRunsAreBlockRuns(c: Config, period: nat, run: seq<Event>)
    requires c.net.Valid() && c.engine.RaftEngine? && At(c, run).Some?
    ensures AtOnBlocks(c, period, run) == At(c, run)
    decreases |run|
  {
    if run != [] {
      var front, v := run[..|run| - 1], run[|run| - 1];
      LastEvent(c, run);
      RaftRunsAreBlockRuns(c, period, front);
      if v.Snapshot? && v.p in c.members {
        RaftIsGrounded(c, At(c, front).value, period, v.o);
      }
    }
  }

  lemma RaftIsGrounded(c: Config, s: NetState, period: nat, o: Observation)
    requires c.engine.RaftEngine? && o.Engine() == c.engine && o.Faithful(c.members, Stale(c, s))
    ensures Grounds(c, s, period, Tracked(o.cluster), o)
  {
    forall v | v in Stale(c, s) ensures o.ShowsSilent(c.members, v) {
      assert v in o.CountedDown();
      var i :| i in Raft.Inactive(o.cluster) && o.cluster[i].nodeId == v;
      assert 0 <= i < |o.cluster| && o.cluster[i].nodeId == v && !o.cluster[i].active;
    }
  }

  /** Main result: in all runs of all networks on ledgers the hibernated members stay
      within the engine's limit if and only if lag, delay and polling fit into the hold. */
  lemma BlocksQuorumIffWithinHold(timing: Timing, period: nat)
    requires timing.Valid()
    ensures (forall c: Config, run: seq<Event> :: c.Valid() && c.timing == timing && AtOnBlocks(c, period, run).Some?
               ==> |AtOnBlocks(c, period, run).value.down.Keys * c.members| <= Limit(c.engine, |c.members|))
            <==> timing.lag + timing.delay + timing.poll <= 60_000
  {
    if timing.WithinHold() {
      forall c: Config, run: seq<Event> | c.Valid() && c.timing == timing && AtOnBlocks(c, period, run).Some?
        ensures |AtOnBlocks(c, period, run).value.down.Keys * c.members| <= Limit(c.engine, |c.members|)
      {
        QuorumOnBlocks(c, period, run);
      }
    } else {
      var x, y, z := "x", "y", "z";
      assert x[0] != y[0] && y[0] != z[0] && x[0] != z[0];
      var run := ShortHoldLosesQuorum(x, y, z, timing);
      RaftRunsAreBlockRuns(Trio(x, y, z, timing), period, run);
    }
  }
}
