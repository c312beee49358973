/** What the four engines' checks have in common: a limit on the members that
    may be down, and the quorum that this limit leaves. */
module Quorum {
  import opened Basics
  import opened Rotation
  import Istanbul
  import GoQuorumClique
  import BesuClique
  import Raft

  datatype Engine = IstanbulEngine | GoQuorumCliqueEngine | BesuCliqueEngine | RaftEngine

  /** The number of consensus members out of n that may be down. */
  function Limit(engine: Engine, n: nat): int {
    match engine
    case IstanbulEngine => Istanbul.Allowed(n)
    case GoQuorumCliqueEngine => GoQuorumClique.Allowed(n)
    case BesuCliqueEngine => BesuClique.Allowed(n)
    case RaftEngine => GoDiv(n - 1, 2)
  }

  // ---- Thresholds ----------------------------------------------------------

  /** The Raft test on active nodes is the Clique test on the nodes down. */
  lemma MajorityTestsAgree(cluster: seq<Raft.ClusterEntry>)
    ensures Raft.Accepts(cluster) <==> |Raft.Inactive(cluster)| < GoQuorumClique.Allowed(|cluster|)
    ensures Raft.Accepts(cluster) <==> |Raft.Inactive(cluster)| < BesuClique.Allowed(|cluster|)
  {
    Raft.CountsFillCluster(cluster);
  }

  /** The majority limit is the largest that keeps n/2+1 members up. */
  lemma MajorityLimitIsExact(engine: Engine, n: nat, down: nat)
    requires !engine.IstanbulEngine? && n > 0
    ensures down <= Limit(engine, n) <==> n - down >= n / 2 + 1
    ensures down <= Limit(engine, n) <==> 2 * down < n
  {
  }

  /** The Istanbul limit is the largest f with n >= 3f + 1. */
  lemma ByzantineLimitIsExact(n: nat, f: nat)
    requires n > 0
    ensures f <= Limit(IstanbulEngine, n) <==> n >= 3 * f + 1
  {
  }

  /** Any two sets of n - f validators share more than f, so an honest one. */
  lemma ByzantineQuorumsMeet(validators: set<string>, a: set<string>, b: set<string>)
    requires validators != {} && a <= validators && b <= validators
    requires var f := Limit(IstanbulEngine, |validators|); |a| >= |validators| - f && |b| >= |validators| - f
    ensures |a * b| >= Limit(IstanbulEngine, |validators|) + 1
  {
    OverlapSize(a, b, validators);
  }

  // ---- Observations --------------------------------------------------------

  /** What a member's blockchain client reports when shutdown is considered. */
  datatype Observation =
    | IstanbulSeen(activity: Istanbul.SealActivity)
    | GoQuorumCliqueSeen(status: GoQuorumClique.Status)
    | BesuCliqueSeen(current: BesuClique.BlockNumber, signers: seq<string>, metrics: seq<BesuClique.Metric>)
    | RaftSeen(cluster: seq<Raft.ClusterEntry>)
  {
    function Engine(): Engine {
      match this
      case IstanbulSeen(_) => IstanbulEngine
      case GoQuorumCliqueSeen(_) => GoQuorumCliqueEngine
      case BesuCliqueSeen(_, _, _) => BesuCliqueEngine
      case RaftSeen(_) => RaftEngine
    }

    /** The engine's check lets the member hibernate. */
    ghost predicate Accepts() {
      match this
      case IstanbulSeen(a) => Istanbul.Accepts(a)
      case GoQuorumCliqueSeen(s) => s.sealers != map[] && GoQuorumClique.Accepts(s)
      case BesuCliqueSeen(c, signers, m) => BesuClique.Accepts(c, |signers|, m)
      case RaftSeen(c) => Raft.Accepts(c)
    }

    /** The members that the engine's check takes to be down. */
    ghost function CountedDown(): set<string> {
      match this
      case IstanbulSeen(a) => Istanbul.CountedDown(a.sealers)
      case GoQuorumCliqueSeen(s) => if s.sealers == map[] then {} else GoQuorumClique.CountedDown(s)
      case BesuCliqueSeen(c, signers, m) =>
        set i | i in BesuClique.CountedDown(c, |signers|, m) :: m[i].address
      case RaftSeen(c) => set i | i in Raft.Inactive(c) :: c[i].nodeId
    }

    /** The report is about the members, each once. */
    ghost predicate Covers(members: set<string>) {
      match this
      case IstanbulSeen(a) => a.sealers.Keys == members
      case GoQuorumCliqueSeen(s) => s.sealers.Keys == members
      case BesuCliqueSeen(_, signers, _) => Names(signers) == members && |signers| == |members|
      case RaftSeen(c) => |c| == |members|
    }

    /** The report covers the members, and the check finds those down for long
        enough; how long that takes is what the block histories below tell. */
    ghost predicate Faithful(members: set<string>, stale: set<string>) {
      Covers(members) && stale <= CountedDown()
    }

    /** In a window long enough for the engine's check, v shows no sign of life. */
    ghost predicate ShowsSilent(members: set<string>, v: string) {
      match this
      case IstanbulSeen(a) => Istanbul.Window(a) && a.numBlocks >= |members| && v in Istanbul.Silent(a.sealers)
      case GoQuorumCliqueSeen(s) => s.numBlocks >= 2 * |members| && v in s.sealers && s.sealers[v] == 0
      case BesuCliqueSeen(c, signers, m) =>
        exists i :: 0 <= i < |m| && m[i].address == v && BesuClique.Stale(c, |signers|, m[i])
      case RaftSeen(c) => exists i :: 0 <= i < |c| && c[i].nodeId == v && !c[i].active
    }
  }

  /** The step from the engines to the network: an accepted, faithful report
      leaves room for one more member to go down. */
  lemma AcceptedLeavesRoom(o: Observation, members: set<string>, stale: set<string>)
    requires o.Faithful(members, stale) && o.Accepts()
    ensures |o.CountedDown()| < Limit(o.Engine(), |members|)
    ensures |stale| < Limit(o.Engine(), |members|)
  {
    match o {
      case IstanbulSeen(a) => assert |a.sealers| == |a.sealers.Keys|;
      case GoQuorumCliqueSeen(s) => assert |s.sealers| == |s.sealers.Keys|;
      case BesuCliqueSeen(c, signers, m) => BesuCount(c, |signers|, m);
      case RaftSeen(c) => RaftCount(c);
    }
    SubsetSize(stale, o.CountedDown());
  }

  // ---- How soon a report is faithful ---------------------------------------

  /** Whatever the spread of blocks, a member without a sign of life is counted. */
  lemma SilentReportIsFaithful(o: Observation, members: set<string>, stale: set<string>)
    requires o.Covers(members) && forall v :: v in stale ==> o.ShowsSilent(members, v)
    ensures o.Faithful(members, stale)
  {
    forall v | v in stale ensures v in o.CountedDown() {
      assert o.ShowsSilent(members, v);
      match o
      case IstanbulSeen(a) =>
        assert |a.sealers| == |a.sealers.Keys|;
        Istanbul.LongWindowSeesSilent(a);
      case GoQuorumCliqueSeen(s) =>
        assert |s.sealers| == |s.sealers.Keys|;
        GoQuorumClique.LongWindowSeesSilent(s, v);
      case BesuCliqueSeen(c, signers, m) =>
        var i :| 0 <= i < |m| && m[i].address == v && BesuClique.Stale(c, |signers|, m[i]);
        assert i in BesuClique.CountedDown(c, |signers|, m);
      case RaftSeen(c) =>
        var i :| 0 <= i < |c| && c[i].nodeId == v && !c[i].active;
        assert i in Raft.Inactive(c);
    }
  }

  /** Istanbul's report on any window that rotated is faithful about validators
      silent for 2N - 1 blocks, though they sealed others of the window. */
  lemma IstanbulReportIsFaithful(ring: seq<string>, live: set<string>, turns: seq<nat>, blocks: seq<string>, k: nat,
                                 stale: set<string>)
    requires k >= 2 * |ring| - 1 && k <= |blocks| && NobodyReturned(live, blocks, k)
    requires forall v :: v in stale ==> FallsSilent(ring, live, turns, blocks, v, k)
    ensures IstanbulSeen(Istanbul.Report(blocks, Names(ring))).Faithful(Names(ring), stale)
  {
    forall v | v in stale ensures v in Istanbul.CountedDown(Istanbul.Report(blocks, Names(ring)).sealers) {
      Istanbul.SilenceShows(ring, live, turns, blocks, v, k);
    }
  }

  /** The same with validators that come back, for 3(N - 1) blocks, if one
      validator was live throughout the window. */
  lemma IstanbulReportIsFaithfulDespiteReturns(ring: seq<string>, a: string, turns: seq<nat>, blocks: seq<string>,
                                               k: nat, stale: set<string>)
    requires Distinct(ring) && a in ring && k >= 3 * (|ring| - 1) && k <= |blocks| && Rotates(ring, {a}, turns, blocks)
    requires forall v :: v in stale ==> v in ring && v != a && v !in blocks[|blocks| - k..]
    ensures IstanbulSeen(Istanbul.Report(blocks, Names(ring))).Faithful(Names(ring), stale)
  {
    forall v | v in stale ensures v in Istanbul.CountedDown(Istanbul.Report(blocks, Names(ring)).sealers) {
      Istanbul.SilenceShowsDespiteReturns(ring, a, turns, blocks, v, k);
    }
  }

  /** GoQuorum Clique's report is faithful about sealers whose share of the window
      exceeds by two what they can have sealed before the silence. */
  lemma GoQuorumCliqueReportIsFaithful(ring: seq<string>, live: set<string>, turns: seq<nat>, blocks: seq<string>,
                                       k: nat, stale: set<string>)
    requires live <= Names(ring) && ring != [] && k <= |blocks|
    requires forall v :: v in stale ==>
               && FallsSilent(ring, live, turns, blocks, v, k)
               && GoQuorumClique.MostBefore(|blocks| - k, |live - {v}|) + 2 <= |blocks| / |ring|
    ensures GoQuorumCliqueSeen(GoQuorumClique.Report(blocks, Names(ring))).Faithful(Names(ring), stale)
  {
    forall v | v in stale ensures GoQuorumClique.TakenDown(blocks, Names(ring), v) {
      GoQuorumClique.SilenceShows(ring, live, turns, blocks, v, k);
    }
  }

  /** Besu's report on a chain of more than n blocks is faithful about signers
      silent for n + 1 blocks, whatever the window of the metrics. */
  lemma ChainReportIsFaithful(chain: BesuClique.Chain, signers: seq<string>, window: nat, stale: set<string>)
    requires |chain| - 1 > |signers| == |Names(signers)|
    requires forall v :: v in stale ==> v in signers && BesuClique.SilentFor(chain, v, |signers| + 1)
    ensures BesuCliqueSeen(|chain| - 1, signers, BesuClique.MetricsOf(chain, signers, window))
              .Faithful(Names(signers), stale)
  {
    var m := BesuClique.MetricsOf(chain, signers, window);
    var o := BesuCliqueSeen(|chain| - 1, signers, m);
    forall v | v in stale ensures o.ShowsSilent(Names(signers), v) {
      var i :| 0 <= i < |signers| && signers[i] == v;
      BesuClique.DetectionMatchesHistory(chain, signers, window, i);
      assert m[i].address == v;
    }
    SilentReportIsFaithful(o, Names(signers), stale);
  }

  /** And if its last N + 1 blocks were sealed in turn by the signers in `up`, the
      report is accepted exactly while there is room for one more to go down. */
  lemma BesuTurnsAccept(chain: BesuClique.Chain, ring: seq<string>, up: set<string>, turns: seq<nat>, window: nat)
    requires Distinct(ring) && ring != [] && up <= Names(ring) && |chain| - 1 > |ring| && window >= |ring|
    requires BesuClique.RotatesFrom(chain, ring, up, turns, |chain| - 1 - |ring|)
    requires forall h :: |chain| - 1 - |ring| <= h < |chain| ==> chain[h] in up
    ensures BesuCliqueSeen(|chain| - 1, ring, BesuClique.MetricsOf(chain, ring, window)).Accepts() <==>
            2 * (|Names(ring) - up| + 1) < |ring|
  {
    BesuClique.TurnsReport(chain, ring, up, turns, window);
  }

  lemma BesuCount(c: BesuClique.BlockNumber, n: nat, m: seq<BesuClique.Metric>)
    ensures |set i | i in BesuClique.CountedDown(c, n, m) :: m[i].address| <= |BesuClique.CountedDown(c, n, m)|
  {
    var down := BesuClique.CountedDown(c, n, m);
    var address: int -> string := i => if 0 <= i < |m| then m[i].address else "";
    ImageSize(down, address);
    assert (set i | i in down :: m[i].address) == Image(down, address);
  }

  lemma RaftCount(c: seq<Raft.ClusterEntry>)
    requires Raft.Accepts(c)
    ensures |set i | i in Raft.Inactive(c) :: c[i].nodeId| < GoDiv(|c| - 1, 2)
  {
    var down := Raft.Inactive(c);
    var id: int -> string := i => if 0 <= i < |c| then c[i].nodeId else "";
    ImageSize(down, id);
    assert (set i | i in down :: c[i].nodeId) == Image(down, id);
    MajorityTestsAgree(c);
  }
}
