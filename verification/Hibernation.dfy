/** The whole network over time: hibernators that take a consensus snapshot,
    sleep, raise their flag, poll their peers, stop their client, hold the flag
    and lower it, while the clock runs.  The state extends that of
    ShutdownGuard, and every step on flags is a step of that protocol. */
module Hibernation {
  import opened Basics
  import opened Core
  import opened ShutdownGuard
  import opened Quorum

  /** CONSENSUS_WAIT_TIME, and the least random sleep before the flag is raised, in milliseconds. */
  const CONSENSUS_WAIT := 60_000
  const MIN_JITTER := 10
  const MAX_JITTER := 5_000

  /** What is assumed of the environment, in milliseconds: how long a stopped
      member may still look alive in a snapshot, and how long a hibernator may
      take from its snapshot to its flag, and from its flag to the last answer. */
  datatype Timing = Timing(lag: nat, delay: nat, poll: nat) {
    predicate Valid() {
      lag >= 1 && delay >= MAX_JITTER
    }

    /** The hold outlasts everything that a peer's decision may be based on. */
    predicate WithinHold() {
      lag + delay + poll <= CONSENSUS_WAIT
    }
  }

  /** members take part in consensus, whether or not a hibernator manages them;
      strict hibernators never stop a member. */
  datatype Config = Config(net: Network, engine: Engine, members: set<Node>, strict: set<Node>, timing: Timing) {
    predicate Valid() {
      net.Valid() && net.FullyCovered() && timing.Valid()
    }

    function MayBeDown(): int {
      Limit(engine, |members|)
    }
  }

  /** phase is the state of the protocol.  The other maps hold times: of the
      snapshot and of raising the flag, for those inside StopClient; since when
      the client is down; since when the flag is held.  seen is what the
      snapshot of a hibernator counted down. */
  datatype NetState = NetState(
    phase: State,
    now: nat,
    snapshot: map<Node, nat>,
    raised: map<Node, nat>,
    down: map<Node, nat>,
    held: map<Node, nat>,
    seen: map<Node, set<Node>>)

  datatype Event =
    | Tick(d: nat)
    | Snapshot(p: Node, o: Observation)
    | Protocol(e: Step)
    | Halt(p: Node)   // the client process goes down while being stopped

  /** The members that have been down for long enough to show in a snapshot. */
  ghost function Stale(c: Config, s: NetState): set<Node> {
    set q | q in s.down && q in c.members && s.down[q] + c.timing.lag <= s.now
  }

  /** The hibernated members. */
  function Hibernated(c: Config, s: NetState): set<Node> {
    s.down.Keys * c.members
  }

  /** When a step of the protocol is on time.  Stops and starts succeed. */
  predicate Timely(c: Config, s: NetState, e: Step) {
    match e
    case Raise(p) => p in s.snapshot && s.snapshot[p] + MIN_JITTER <= s.now <= s.snapshot[p] + c.timing.delay
    case Answer(p, _) => p in s.raised && s.now <= s.raised[p] + c.timing.poll
    case StopOk(p) => p in s.down
    case StopFail(_) => false
    case Release(p) => p in s.held && s.held[p] + CONSENSUS_WAIT <= s.now
    case BeginStart(p) => p in s.down && p !in s.snapshot
    case StartFail(_) => false
    case _ => true
  }

  ghost predicate Possible(c: Config, s: NetState, v: Event)
    requires c.net.Valid() && s.phase.Keys == c.net.nodes
  {
    match v
    case Tick(_) => true
    case Snapshot(p, o) =>
      && p in s.phase && s.phase[p].Resting? && p !in s.snapshot && p !in s.down
      && (p in c.members ==>
            p !in c.strict && o.Engine() == c.engine && o.Faithful(c.members, Stale(c, s)) && o.Accepts())
    case Protocol(e) => Enabled(c.net, s.phase, e) && Timely(c, s, e)
    case Halt(p) => p in s.phase && s.phase[p].Stopping? && p !in s.down
  }

  ghost function Next(c: Config, s: NetState, v: Event): (t: NetState)
    requires c.net.Valid() && s.phase.Keys == c.net.nodes && (v.Protocol? ==> Enabled(c.net, s.phase, v.e))
    ensures t.phase.Keys == c.net.nodes
  {
    match v
    case Tick(d) => s.(now := s.now + d)
    case Snapshot(p, o) => s.(snapshot := s.snapshot[p := s.now], seen := s.seen[p := o.CountedDown()])
    case Halt(p) => s.(down := s.down[p := s.now])
    case Protocol(e) =>
      var t := s.(phase := Apply(c.net, s.phase, e));
      match e
      case Raise(p) => t.(raised := s.raised[p := s.now])
      case Decide(p) =>
        if t.phase[p].Resting? then t.(snapshot := s.snapshot - {p}, raised := s.raised - {p}) else t
      case StopOk(p) => t.(held := s.held[p := s.now])
      case Release(p) => t.(snapshot := s.snapshot - {p}, raised := s.raised - {p}, held := s.held - {p})
      case StartOk(p) => t.(down := s.down - {p})
      case _ => t
  }

  function Start(c: Config): NetState {
    NetState(Init(c.net), 0, map[], map[], map[], map[], map[])
  }

  /** The state a run of events leads to; None if some event could not happen. */
  ghost function At(c: Config, run: seq<Event>): (r: Option<NetState>)
    requires c.net.Valid()
    ensures r.Some? ==> r.value.phase.Keys == c.net.nodes
    decreases |run|
  {
    if run == [] then Some(Start(c)) else
      match At(c, run[..|run| - 1])
      case None => None
      case Some(s) =>
        if Possible(c, s, run[|run| - 1]) then Some(Next(c, s, run[|run| - 1])) else None
  }

  /** No more members are hibernated than the engine can spare. */
  ghost predicate QuorumKept(c: Config, s: NetState) {
    |Hibernated(c, s)| <= c.MayBeDown()
  }

  // ---- The invariant -------------------------------------------------------

  /** Bookkeeping of one hibernator: which times it has in which phase. */
  predicate Kept(c: Config, s: NetState, p: Node)
    requires p in s.phase
  {
    var f := s.phase[p];
    && !f.Stuck? && !f.StartStuck?
    && (f.Polling? || Past(f) <==> p in s.raised)
    && (p in s.raised ==> p in s.snapshot && s.raised[p] <= s.snapshot[p] + c.timing.delay)
    && (p in s.snapshot ==> p in s.seen && s.snapshot[p] <= s.now && !f.Starting?)
    && (p in s.snapshot && !Past(f) ==> p !in s.down)
    && (p in s.down ==> s.down[p] <= s.now)
    && (f.Holding? ==> p in s.held && p in s.down && s.down[p] <= s.held[p])
  }

  /** Whoever is down with its flag lowered has been down for the whole hold. */
  predicate HeldLongEnough(s: NetState, q: Node)
    requires q in s.phase
  {
    q in s.down && !Past(s.phase[q]) ==> s.down[q] + CONSENSUS_WAIT <= s.now
  }

  /** p's snapshot missed q only if q went down too recently to show. */
  predicate MissedOnlyRecent(c: Config, s: NetState, p: Node, q: Node) {
    p in s.snapshot && p in s.seen && q in s.down && q !in s.seen[p]
    ==> s.snapshot[p] < s.down[q] + c.timing.lag
  }

  /** Once p is cleared by q, q is counted in p's snapshot or q is up. */
  predicate ClearedIsSeen(s: NetState, p: Node, q: Node)
    requires p in s.phase
  {
    p in s.seen && Cleared(s.phase, p, q) && q in s.down ==> q in s.seen[p]
  }

  /** Every snapshot in use left room for one more member to go down. */
  predicate RoomLeft(c: Config, s: NetState) {
    forall p :: p in s.snapshot && p in c.members ==> p in s.seen && |s.seen[p]| < c.MayBeDown()
  }

  predicate Books(c: Config, s: NetState) {
    forall p :: p in s.phase ==> Kept(c, s, p) && HeldLongEnough(s, p)
  }

  predicate SnapshotsCover(c: Config, s: NetState) {
    forall p, q :: p in s.phase && p in c.members && q in c.members && q != p ==>
      MissedOnlyRecent(c, s, p, q) && ClearedIsSeen(s, p, q)
  }

  ghost predicate NetInv(c: Config, s: NetState)
    requires c.net.Valid()
  {
    && Inv(c.net, s.phase)
    && s.down.Keys <= c.net.nodes && s.snapshot.Keys <= c.net.nodes
    && Books(c, s)
    && SnapshotsCover(c, s)
    && RoomLeft(c, s)
    && QuorumKept(c, s)
  }

  lemma TickKeeps(c: Config, s: NetState, d: nat)
    requires c.Valid() && NetInv(c, s)
    ensures NetInv(c, Next(c, s, Tick(d)))
  {
    var t := Next(c, s, Tick(d));
    assert SnapshotsCover(c, t) by {
      forall p, q | p in t.phase && p in c.members && q in c.members && q != p
        ensures MissedOnlyRecent(c, t, p, q) && ClearedIsSeen(t, p, q)
      {
        assert MissedOnlyRecent(c, s, p, q) && ClearedIsSeen(s, p, q);
      }
    }
    assert Books(c, t) by {
      forall p | p in t.phase ensures Kept(c, t, p) && HeldLongEnough(t, p) {
        assert Kept(c, s, p) && HeldLongEnough(s, p);
      }
    }
    assert Hibernated(c, t) == Hibernated(c, s);
  }

  lemma SnapshotKeeps(c: Config, s: NetState, p: Node, o: Observation)
    requires c.Valid() && NetInv(c, s) && Possible(c, s, Snapshot(p, o))
    ensures NetInv(c, Next(c, s, Snapshot(p, o)))
  {
    var t := Next(c, s, Snapshot(p, o));
    assert Hibernated(c, t) == Hibernated(c, s);
    assert RoomLeft(c, t) by {
      if p in c.members {
        AcceptedLeavesRoom(o, c.members, Stale(c, s));
      }
    }
    assert SnapshotsCover(c, t) by {
      forall r, q | r in t.phase && r in c.members && q in c.members && q != r
        ensures MissedOnlyRecent(c, t, r, q) && ClearedIsSeen(t, r, q)
      {
        SnapshotKeepsSeen(c, s, p, o, r, q);
      }
    }
    SnapshotKeepsBooks(c, s, p, o);
  }

  lemma SnapshotKeepsBooks(c: Config, s: NetState, p: Node, o: Observation)
    requires c.Valid() && NetInv(c, s) && Possible(c, s, Snapshot(p, o))
    ensures Books(c, Next(c, s, Snapshot(p, o)))
  {
    var t := Next(c, s, Snapshot(p, o));
    forall r | r in t.phase ensures Kept(c, t, r) && HeldLongEnough(t, r) {
      assert Kept(c, s, r) && HeldLongEnough(s, r);
    }
  }

  lemma SnapshotKeepsSeen(c: Config, s: NetState, p: Node, o: Observation, r: Node, q: Node)
    requires c.Valid() && NetInv(c, s) && Possible(c, s, Snapshot(p, o))
    requires r in s.phase && r in c.members && q in c.members && q != r
    ensures MissedOnlyRecent(c, Next(c, s, Snapshot(p, o)), r, q)
    ensures ClearedIsSeen(Next(c, s, Snapshot(p, o)), r, q)
  {
    assert MissedOnlyRecent(c, s, r, q) && ClearedIsSeen(s, r, q);
    if r == p {
      AcceptedLeavesRoom(o, c.members, Stale(c, s));
      assert q in s.down && q !in Stale(c, s) ==> s.now < s.down[q] + c.timing.lag;
    }
  }

  /** A hibernator past validation has counted every other hibernated member. */
  lemma PastHasSeenAll(c: Config, s: NetState, p: Node)
    requires c.Valid() && NetInv(c, s) && p in s.phase && Past(s.phase[p]) && p in c.members && p !in s.down
    ensures |Hibernated(c, s)| < c.MayBeDown()
  {
    assert Kept(c, s, p);
    forall q | q in Hibernated(c, s) ensures q in s.seen[p] {
      assert ClearedIsSeen(s, p, q);
    }
    SubsetSize(Hibernated(c, s), s.seen[p]);
  }

  lemma HaltKeeps(c: Config, s: NetState, p: Node)
    requires c.Valid() && NetInv(c, s) && Possible(c, s, Halt(p))
    ensures NetInv(c, Next(c, s, Halt(p)))
  {
    var t := Next(c, s, Halt(p));
    assert SnapshotsCover(c, t) by {
      forall r, q | r in t.phase && r in c.members && q in c.members && q != r
        ensures MissedOnlyRecent(c, t, r, q) && ClearedIsSeen(t, r, q)
      {
        HaltKeepsSeen(c, s, p, r, q);
      }
    }
    assert Books(c, t) by {
      forall r | r in t.phase ensures Kept(c, t, r) && HeldLongEnough(t, r) {
        assert Kept(c, s, r) && HeldLongEnough(s, r);
      }
    }
    HaltKeepsQuorum(c, s, p);
  }

  lemma HaltKeepsQuorum(c: Config, s: NetState, p: Node)
    requires c.Valid() && NetInv(c, s) && Possible(c, s, Halt(p))
    ensures QuorumKept(c, Next(c, s, Halt(p)))
  {
    if p in c.members {
      PastHasSeenAll(c, s, p);
    }
    OneMoreDown(c, s, p);
  }

  lemma OneMoreDown(c: Config, s: NetState, p: Node)
    requires |Hibernated(c, s)| + (if p in c.members then 1 else 0) <= c.MayBeDown()
    ensures QuorumKept(c, s.(down := s.down[p := s.now]))
  {
    var t := s.(down := s.down[p := s.now]);
    SubsetSize(Hibernated(c, t), Hibernated(c, s) + if p in c.members then {p} else {});
  }

  /** Whoever goes down is past validation, so nobody else has been cleared by it. */
  lemma HaltKeepsSeen(c: Config, s: NetState, p: Node, r: Node, q: Node)
    requires c.Valid() && NetInv(c, s) && Possible(c, s, Halt(p))
    requires r in s.phase && r in c.members && q in c.members && q != r
    ensures MissedOnlyRecent(c, Next(c, s, Halt(p)), r, q)
    ensures ClearedIsSeen(Next(c, s, Halt(p)), r, q)
  {
    assert MissedOnlyRecent(c, s, r, q) && ClearedIsSeen(s, r, q);
    assert Kept(c, s, r);
    if q == p {
      assert Cleared(s.phase, p, r) && !Cleared(s.phase, r, p);
    }
  }

  /** The point of the hold: a peer that clears p after p's flag went up was
      either up itself or already counted in p's snapshot. */
  lemma AnswerSees(c: Config, s: NetState, p: Node, q: Node)
    requires c.Valid() && c.timing.WithinHold() && NetInv(c, s) && Possible(c, s, Protocol(Answer(p, q)))
    requires p in c.members && q in c.members && q in s.down && Clears(Answered(Flag(s.phase[q])))
    ensures p in s.seen && q in s.seen[p]
  {
    assert Kept(c, s, p) && HeldLongEnough(s, q) && MissedOnlyRecent(c, s, p, q);
  }

  /** The steps up to the verdict of the peers; the others stop and start. */
  predicate Validating(e: Step) {
    e.Raise? || e.Answer? || e.Lose? || e.Refuse? || e.Decide?
  }

  /** Whatever is kept about p is the same in both states. */
  predicate Untouched(s: NetState, t: NetState, p: Node)
    requires p in s.phase && p in t.phase
  {
    && t.phase[p] == s.phase[p] && t.now == s.now && t.seen == s.seen
    && SameAt(s.snapshot, t.snapshot, p) && SameAt(s.raised, t.raised, p)
    && SameAt(s.down, t.down, p) && SameAt(s.held, t.held, p)
  }

  /** A step of the protocol touches no hibernator but its own. */
  lemma OthersUntouched(c: Config, s: NetState, e: Step, p: Node)
    requires c.Valid() && s.phase.Keys == c.net.nodes && Possible(c, s, Protocol(e))
    requires p in s.phase && p != e.p
    ensures Untouched(s, Next(c, s, Protocol(e)), p)
  {
    if Validating(e) {
      ValidatingTouchesOwn(c, s, e, p);
    } else {
      StoppingTouchesOwn(c, s, e, p);
    }
  }

  lemma ValidatingTouchesOwn(c: Config, s: NetState, e: Step, p: Node)
    requires c.Valid() && s.phase.Keys == c.net.nodes && Possible(c, s, Protocol(e)) && Validating(e)
    requires p in s.phase && p != e.p
    ensures Untouched(s, Next(c, s, Protocol(e)), p)
  {
    match e
    case Raise(_) =>
    case Decide(_) =>
    case _ =>
  }

  lemma StoppingTouchesOwn(c: Config, s: NetState, e: Step, p: Node)
    requires c.Valid() && s.phase.Keys == c.net.nodes && Possible(c, s, Protocol(e)) && !Validating(e)
    requires p in s.phase && p != e.p
    ensures Untouched(s, Next(c, s, Protocol(e)), p)
  {
    match e
    case StopOk(_) =>
    case Release(_) =>
    case StartOk(_) =>
    case _ =>
  }

  predicate SameAt(m: map<Node, nat>, m': map<Node, nat>, p: Node) {
    (p in m <==> p in m') && (p in m ==> m[p] == m'[p])
  }

  /** It adds no snapshot and takes nobody down. */
  lemma ProtocolOnlyRemoves(c: Config, s: NetState, e: Step)
    requires c.net.Valid() && s.phase.Keys == c.net.nodes && Possible(c, s, Protocol(e))
    ensures var t := Next(c, s, Protocol(e));
            && t.seen == s.seen && t.phase == Apply(c.net, s.phase, e)
            && t.down.Keys <= s.down.Keys && (forall q :: q in t.down ==> t.down[q] == s.down[q])
            && t.snapshot.Keys <= s.snapshot.Keys && (forall q :: q in t.snapshot ==> t.snapshot[q] == s.snapshot[q])
  {
  }

  lemma ProtocolKeepsSeen(c: Config, s: NetState, e: Step, p: Node, q: Node)
    requires c.Valid() && c.timing.WithinHold() && NetInv(c, s) && Possible(c, s, Protocol(e))
    requires p in s.phase && p in c.members && q in c.members && q != p
    ensures MissedOnlyRecent(c, Next(c, s, Protocol(e)), p, q)
    ensures ClearedIsSeen(Next(c, s, Protocol(e)), p, q)
  {
    ProtocolOnlyRemoves(c, s, e);
    assert MissedOnlyRecent(c, s, p, q) && ClearedIsSeen(s, p, q);
    if q in s.down && p in s.seen {
      if e == Answer(p, q) {
        if Clears(Answered(Flag(s.phase[q]))) {
          AnswerSees(c, s, p, q);
        }
      } else {
        ClearedBefore(c, s.phase, e, p, q);
      }
    }
  }

  /** Only q's own answer clears p; passing validation needs it already. */
  lemma ClearedBefore(c: Config, s: State, e: Step, p: Node, q: Node)
    requires c.Valid() && s.Keys == c.net.nodes && Enabled(c.net, s, e)
    requires p in s && q in s && q != p && e != Answer(p, q)
    ensures Cleared(Apply(c.net, s, e), p, q) ==> Cleared(s, p, q)
  {
    assert c.net.Covered(p, q);
  }

  lemma ProtocolKeepsBooks(c: Config, s: NetState, e: Step, p: Node)
    requires c.Valid() && NetInv(c, s) && Possible(c, s, Protocol(e)) && p in s.phase
    ensures Kept(c, Next(c, s, Protocol(e)), p) && HeldLongEnough(Next(c, s, Protocol(e)), p)
  {
    assert Kept(c, s, p) && HeldLongEnough(s, p);
    if e.p != p {
      OthersUntouched(c, s, e, p);
    } else {
      OwnBooks(c, s, e);
    }
  }

  lemma OwnBooks(c: Config, s: NetState, e: Step)
    requires c.Valid() && s.phase.Keys == c.net.nodes && Possible(c, s, Protocol(e))
    requires Kept(c, s, e.p) && HeldLongEnough(s, e.p)
    ensures Kept(c, Next(c, s, Protocol(e)), e.p) && HeldLongEnough(Next(c, s, Protocol(e)), e.p)
  {
    if Validating(e) {
      OwnBooksValidating(c, s, e);
    } else {
      OwnBooksStopping(c, s, e);
    }
  }

  lemma OwnBooksValidating(c: Config, s: NetState, e: Step)
    requires c.Valid() && s.phase.Keys == c.net.nodes && Possible(c, s, Protocol(e)) && Validating(e)
    requires Kept(c, s, e.p) && HeldLongEnough(s, e.p)
    ensures Kept(c, Next(c, s, Protocol(e)), e.p) && HeldLongEnough(Next(c, s, Protocol(e)), e.p)
  {
  }

  lemma OwnBooksStopping(c: Config, s: NetState, e: Step)
    requires c.Valid() && s.phase.Keys == c.net.nodes && Possible(c, s, Protocol(e)) && !Validating(e)
    requires Kept(c, s, e.p) && HeldLongEnough(s, e.p)
    ensures Kept(c, Next(c, s, Protocol(e)), e.p) && HeldLongEnough(Next(c, s, Protocol(e)), e.p)
  {
  }

  lemma ProtocolKeeps(c: Config, s: NetState, e: Step)
    requires c.Valid() && c.timing.WithinHold() && NetInv(c, s) && Possible(c, s, Protocol(e))
    ensures NetInv(c, Next(c, s, Protocol(e)))
  {
    var t := Next(c, s, Protocol(e));
    InvIsKept(c.net, s.phase, e);
    ProtocolOnlyRemoves(c, s, e);
    assert Books(c, t) by {
      forall p | p in t.phase ensures Kept(c, t, p) && HeldLongEnough(t, p) {
        ProtocolKeepsBooks(c, s, e, p);
      }
    }
    assert SnapshotsCover(c, t) by {
      forall p, q | p in t.phase && p in c.members && q in c.members && q != p
        ensures MissedOnlyRecent(c, t, p, q) && ClearedIsSeen(t, p, q)
      {
        ProtocolKeepsSeen(c, s, e, p, q);
      }
    }
    SubsetSize(Hibernated(c, t), Hibernated(c, s));
  }

  /** Every run of a network whose hold outlasts lag, delay and polling keeps
      the invariant, and with it the quorum. */
  lemma {:induction false} RunsKeepNetInv(c: Config, run: seq<Event>)
    requires c.Valid() && c.timing.WithinHold() && At(c, run).Some?
    ensures NetInv(c, At(c, run).value)
    decreases |run|
  {
    if run == [] {
      assert Hibernated(c, Start(c)) == {};
    } else {
      var n := |run| - 1;
      RunsKeepNetInv(c, run[..n]);
      var s := At(c, run[..n]).value;
      match run[n]
      case Tick(d) => TickKeeps(c, s, d);
      case Snapshot(p, o) => SnapshotKeeps(c, s, p, o);
      case Halt(p) => HaltKeeps(c, s, p);
      case Protocol(e) => ProtocolKeeps(c, s, e);
    }
  }

  // ---- The hold is exactly long enough -------------------------------------

  lemma Do(c: Config, run: seq<Event>, v: Event) returns (run': seq<Event>, t: NetState)
    requires c.net.Valid() && At(c, run).Some? && Possible(c, At(c, run).value, v)
    ensures At(c, run') == Some(t) && t == Next(c, At(c, run).value, v) && run' == run + [v]
  {
    run' := run + [v];
    assert run'[..|run|] == run;
    t := Next(c, At(c, run).value, v);
  }

  /** Three Raft members that all know each other. */
  function Trio(x: Node, y: Node, z: Node, timing: Timing): Config {
    Config(Network({x, y, z}, map[x := {y, z}, y := {x, z}, z := {x, y}], {}), RaftEngine, {x, y, z}, {}, timing)
  }

  function AllActive(x: Node, y: Node, z: Node): Observation {
    RaftSeen([Raft.ClusterEntry(x, true), Raft.ClusterEntry(y, true), Raft.ClusterEntry(z, true)])
  }

  lemma TrioFacts(x: Node, y: Node, z: Node, timing: Timing)
    requires x != y && y != z && x != z && timing.Valid()
    ensures Trio(x, y, z, timing).Valid() && Trio(x, y, z, timing).MayBeDown() == 1
    ensures AllActive(x, y, z).Accepts() && AllActive(x, y, z).Faithful({x, y, z}, {})
  {
    var o := AllActive(x, y, z);
    assert Raft.Active(o.cluster) == {0, 1, 2};
    assert {x, y, z} - {x} == {y, z} && {x, y, z} - {y} == {x, z} && {x, y, z} - {z} == {x, y};
    assert |{x, y, z}| == 3;
  }

  /** One clearing answer for p, whose flag is up and whose time is not. */
  lemma PollOne(c: Config, run: seq<Event>, p: Node, q: Node, r: map<Node, Reply>)
    returns (run': seq<Event>, r': map<Node, Reply>)
    requires c.net.Valid() && At(c, run).Some?
    requires var s := At(c, run).value;
             && p in s.phase && s.phase[p] == Polling(r) && q in c.net.peers[p] && q !in r && s.phase[q].Resting?
             && p in s.raised && s.now <= s.raised[p] + c.timing.poll
    ensures At(c, run') == Some(At(c, run).value.(phase := At(c, run).value.phase[p := Polling(r')]))
    ensures r' == r[q := Answered(OK)] && run <= run'
  {
    var s := At(c, run).value;
    var s1;
    run', s1 := Do(c, run, Protocol(Answer(p, q)));
    r' := s1.phase[p].replies;
  }

  /** With both peers at rest, a hibernator that has its flag up passes. */
  lemma PollBoth(c: Config, run: seq<Event>, p: Node, q: Node, r: Node) returns (run': seq<Event>)
    requires c.net.Valid() && At(c, run).Some? && p in c.net.nodes && c.net.peers[p] == {q, r} && q != r
    requires var s := At(c, run).value;
             && s.phase[p] == Polling(map[]) && s.phase[q].Resting? && s.phase[r].Resting?
             && p in s.raised && s.now <= s.raised[p] + c.timing.poll
    ensures At(c, run') == Some(At(c, run).value.(phase := At(c, run).value.phase[p := Stopping])) && run <= run'
  {
    var s := At(c, run).value;
    var run1, r1 := PollOne(c, run, p, q, map[]);
    var run2, r2 := PollOne(c, run1, p, r, r1);
    assert r2.Keys == {q, r};
    var run3, s3 := Do(c, run2, Protocol(Decide(p)));
    assert s3.phase == s.phase[p := Stopping];
    run' := run3;
  }

  /** A member takes its snapshot, sleeps for d and raises its flag. */
  lemma SnapAndRaise(x: Node, y: Node, z: Node, timing: Timing, run: seq<Event>, p: Node, d: nat)
    returns (run': seq<Event>)
    requires x != y && y != z && x != z && timing.Valid() && p in {x, y, z} && MIN_JITTER <= d <= timing.delay
    requires var c := Trio(x, y, z, timing);
             c.net.Valid() && At(c, run).Some? &&
             var s := At(c, run).value;
             s.phase[p].Resting? && p !in s.snapshot && p !in s.down && Stale(c, s) == {}
    ensures var c := Trio(x, y, z, timing);
            At(c, run').Some? &&
            var s, t := At(c, run).value, At(c, run').value;
            && t.now == s.now + d && t.phase == s.phase[p := Polling(map[])]
            && t.snapshot == s.snapshot[p := s.now] && t.raised == s.raised[p := t.now]
            && t.down == s.down && t.held == s.held
    ensures run <= run'
  {
    var c := Trio(x, y, z, timing);
    TrioFacts(x, y, z, timing);
    var run1, s1 := Do(c, run, Snapshot(p, AllActive(x, y, z)));
    var run2, s2 := Do(c, run1, Tick(d));
    var run3, s3 := Do(c, run2, Protocol(Raise(p)));
    run' := run3;
  }

  /** The client of a hibernator past validation stops, and the hold begins. */
  lemma HaltAndHold(c: Config, run: seq<Event>, p: Node) returns (run': seq<Event>)
    requires c.net.Valid() && At(c, run).Some?
    requires var s := At(c, run).value; p in s.phase && s.phase[p].Stopping? && p !in s.down
    ensures var s := At(c, run).value;
            At(c, run') == Some(s.(phase := s.phase[p := Holding], down := s.down[p := s.now],
                      held := s.held[p := s.now]))
    ensures run <= run'
  {
    var run1, s1 := Do(c, run, Halt(p));
    var run2, s2 := Do(c, run1, Protocol(StopOk(p)));
    run' := run2;
  }

  /** x hibernates ten milliseconds after its snapshot. */
  lemma FirstHibernates(x: Node, y: Node, z: Node, timing: Timing) returns (run: seq<Event>)
    requires x != y && y != z && x != z && timing.Valid()
    ensures var c := Trio(x, y, z, timing);
            c.net.Valid() && At(c, run).Some? &&
            var s := At(c, run).value;
            && s.now == 10 && s.phase[x].Holding? && s.phase[y].Resting? && s.phase[z].Resting?
            && s.down == map[x := 10] && s.held == map[x := 10] && s.snapshot.Keys == {x} && s.raised.Keys == {x}
  {
    var c := Trio(x, y, z, timing);
    TrioFacts(x, y, z, timing);
    var run1 := FirstPasses(x, y, z, timing);
    run := HaltAndHold(c, run1, x);
  }

  lemma FirstPasses(x: Node, y: Node, z: Node, timing: Timing) returns (run: seq<Event>)
    requires x != y && y != z && x != z && timing.Valid()
    ensures var c := Trio(x, y, z, timing);
            c.net.Valid() && At(c, run).Some? &&
            var s := At(c, run).value;
            && s.now == 10 && s.phase[x].Stopping? && s.phase[y].Resting? && s.phase[z].Resting?
            && s.down == map[] && s.held == map[] && s.snapshot.Keys == {x} && s.raised.Keys == {x}
  {
    var c := Trio(x, y, z, timing);
    TrioFacts(x, y, z, timing);
    assert At(c, []) == Some(Start(c)) && Stale(c, Start(c)) == {};
    var run1 := SnapAndRaise(x, y, z, timing, [], x, MIN_JITTER);
    run := PollBoth(c, run1, x, y, z);
  }

  /** y, whose snapshot does not show x yet, polls x after x lowered its flag. */
  lemma SecondPasses(x: Node, y: Node, z: Node, timing: Timing) returns (run: seq<Event>)
    requires x != y && y != z && x != z && timing.Valid() && !timing.WithinHold()
    ensures var c := Trio(x, y, z, timing);
            c.net.Valid() && At(c, run).Some? &&
            var s := At(c, run).value;
            s.phase[y].Stopping? && s.down == map[x := 10]
  {
    var c := Trio(x, y, z, timing);
    TrioFacts(x, y, z, timing);
    var run0 := FirstHibernates(x, y, z, timing);
    var run1, s1 := Do(c, run0, Tick(timing.lag - 1));
    assert Stale(c, s1) == {};
    var run2 := SnapAndRaise(x, y, z, timing, run1, y, timing.delay);
    var run3, s3 := Do(c, run2, Tick(timing.poll));
    var run4, s4 := Do(c, run3, Protocol(Release(x)));
    run := PollBoth(c, run4, y, x, z);
  }

  /** If the hold is too short, both can hibernate, one more than Raft can spare. */
  lemma ShortHoldLosesQuorum(x: Node, y: Node, z: Node, timing: Timing) returns (run: seq<Event>)
    requires x != y && y != z && x != z && timing.Valid() && !timing.WithinHold()
    ensures var c := Trio(x, y, z, timing);
            c.Valid() && At(c, run).Some? && !QuorumKept(c, At(c, run).value)
  {
    var c := Trio(x, y, z, timing);
    TrioFacts(x, y, z, timing);
    var run0 := SecondPasses(x, y, z, timing);
    var run1, s1 := Do(c, run0, Halt(y));
    run := run1;
    assert Hibernated(c, s1) == {x, y};
  }

  /** Main result: the quorum holds in every run of every network if and only
      if lag, delay and polling together fit into the hold. */
  lemma QuorumIffWithinHold(timing: Timing)
    requires timing.Valid()
    ensures (forall c: Config, run: seq<Event> :: c.Valid() && c.timing == timing && At(c, run).Some?
               ==> |At(c, run).value.down.Keys * c.members| <= Limit(c.engine, |c.members|))
            <==> timing.lag + timing.delay + timing.poll <= 60_000
  {
    if timing.WithinHold() {
      forall c: Config, run: seq<Event> | c.Valid() && c.timing == timing && At(c, run).Some?
        ensures |At(c, run).value.down.Keys * c.members| <= Limit(c.engine, |c.members|)
      {
        RunsKeepNetInv(c, run);
      }
    } else {
      var x, y, z := "x", "y", "z";
      assert x[0] != y[0] && y[0] != z[0] && x[0] != z[0];
      var run := ShortHoldLosesQuorum(x, y, z, timing);
      assert Trio(x, y, z, timing).Valid();
    }
  }

  // ---- What the quorum means for the engines -------------------------------

  lemma LiveCount(c: Config, s: NetState)
    requires QuorumKept(c, s)
    ensures |c.members - s.down.Keys| >= |c.members| - c.MayBeDown()
  {
    assert c.members == (c.members - s.down.Keys) + Hibernated(c, s);
  }

  /** Istanbul: in every run at least n - f validators are live, and they share
      an honest validator with every other set of n - f. */
  lemma ByzantineQuorumSurvives(c: Config, run: seq<Event>, other: set<Node>)
    requires c.Valid() && c.timing.WithinHold() && c.engine.IstanbulEngine? && c.members != {}
    requires At(c, run).Some? && other <= c.members && |other| >= |c.members| - c.MayBeDown()
    ensures var live := c.members - At(c, run).value.down.Keys;
            && |live| >= |c.members| - c.MayBeDown()
            && |live * other| >= c.MayBeDown() + 1
            && |c.members| >= 3 * c.MayBeDown() + 1
  {
    RunsKeepNetInv(c, run);
    LiveCount(c, At(c, run).value);
    ByzantineQuorumsMeet(c.members, c.members - At(c, run).value.down.Keys, other);
  }

  /** Raft and Clique: in every run more than half of the members are live. */
  lemma MajoritySurvives(c: Config, run: seq<Event>)
    requires c.Valid() && c.timing.WithinHold() && !c.engine.IstanbulEngine? && c.members != {}
    requires At(c, run).Some?
    ensures |c.members - At(c, run).value.down.Keys| >= |c.members| / 2 + 1
  {
    RunsKeepNetInv(c, run);
    LiveCount(c, At(c, run).value);
  }

  // ---- Hibernating again ---------------------------------------------------

  /** Who has held its flag for long enough can be started. */
  lemma StartAgain(c: Config, run: seq<Event>, p: Node) returns (run': seq<Event>)
    requires c.net.Valid() && At(c, run).Some?
    requires var s := At(c, run).value; p in s.phase && s.phase[p].Resting? && p in s.down && p !in s.snapshot
    ensures run <= run'
    ensures At(c, run') == Some(At(c, run).value.(down := At(c, run).value.down - {p}))
  {
    var run1, s1 := Do(c, run, Protocol(BeginStart(p)));
    var run2, s2 := Do(c, run1, Protocol(StartOk(p)));
    assert s2.phase == At(c, run).value.phase;
    run' := run2;
  }

  /** Who hibernates can be started after the hold. */
  lemma WakeUp(c: Config, run: seq<Event>, p: Node) returns (run': seq<Event>)
    requires c.net.Valid() && At(c, run).Some?
    requires var s := At(c, run).value;
             p in s.phase && s.phase[p].Holding? && p in s.held && p in s.down && s.held[p] <= s.now
    ensures At(c, run').Some? && run <= run'
    ensures var s, t := At(c, run).value, At(c, run').value;
            && t.now == s.now + CONSENSUS_WAIT && t.phase == s.phase[p := Resting]
            && t.down == s.down - {p} && t.snapshot == s.snapshot - {p} && t.raised == s.raised - {p}
  {
    var run1, s1 := Do(c, run, Tick(CONSENSUS_WAIT));
    var run2, s2 := Do(c, run1, Protocol(Release(p)));
    run' := StartAgain(c, run2, p);
  }

  /** The run can happen, and at its end exactly these members are down. */
  ghost predicate LeavesDown(c: Config, run: seq<Event>, down: set<Node>)
    requires c.net.Valid()
  {
    At(c, run).Some? && At(c, run).value.down.Keys == down
  }

  /** One member hibernates, is started, and hibernates again. */
  lemma HibernatesTwice(x: Node, y: Node, z: Node, timing: Timing)
    returns (first: seq<Event>, woken: seq<Event>, second: seq<Event>)
    requires x != y && y != z && x != z && timing.Valid()
    ensures var c := Trio(x, y, z, timing);
            && c.Valid() && first <= woken <= second
            && LeavesDown(c, first, {x}) && LeavesDown(c, woken, {}) && LeavesDown(c, second, {x})
  {
    var c := Trio(x, y, z, timing);
    TrioFacts(x, y, z, timing);
    first := FirstHibernates(x, y, z, timing);
    woken := WakeUp(c, first, x);
    var s := At(c, woken).value;
    assert Stale(c, s) == {};
    var run1 := SnapAndRaise(x, y, z, timing, woken, x, MIN_JITTER);
    var run2 := PollBoth(c, run1, x, y, z);
    second := HaltAndHold(c, run2, x);
  }

  /** x polls, y refuses, z clears: x gives up. */
  lemma IsRefused(c: Config, run: seq<Event>, x: Node, y: Node, z: Node) returns (run': seq<Event>)
    requires c.net.Valid() && At(c, run).Some? && x in c.net.nodes && c.net.peers[x] == {y, z} && y != z
    requires var s := At(c, run).value;
             && s.phase[x] == Polling(map[]) && s.phase[z].Resting?
             && x in s.raised && s.now <= s.raised[x] + c.timing.poll
    ensures run <= run' && Protocol(Refuse(x, y)) in run' && At(c, run').Some?
    ensures var s, t := At(c, run).value, At(c, run').value;
            && t.phase == s.phase[x := Resting] && t.down == s.down && t.held == s.held && t.now == s.now
            && t.snapshot == s.snapshot - {x} && t.raised == s.raised - {x}
  {
    var run1, s1 := Do(c, run, Protocol(Refuse(x, y)));
    assert Protocol(Refuse(x, y)) in run1;
    var run2, r2 := PollOne(c, run1, x, z, map[y := Refused]);
    assert r2.Keys == {y, z} && !Clears(r2[y]);
    var run3, s3 := Do(c, run2, Protocol(Decide(x)));
    run' := run3;
  }

  /** A member that a peer refuses stays up, and may try again. */
  lemma RefusedTriesAgain(x: Node, y: Node, z: Node, timing: Timing) returns (refused: seq<Event>, run: seq<Event>)
    requires x != y && y != z && x != z && timing.Valid()
    ensures var c := Trio(x, y, z, timing);
            && c.Valid() && refused <= run && Protocol(Refuse(x, y)) in refused
            && LeavesDown(c, refused, {}) && At(c, refused).value.phase[x].Resting?
            && LeavesDown(c, run, {x})
  {
    var c := Trio(x, y, z, timing);
    TrioFacts(x, y, z, timing);
    assert At(c, []) == Some(Start(c)) && Stale(c, Start(c)) == {};
    var run1 := SnapAndRaise(x, y, z, timing, [], x, MIN_JITTER);
    refused := IsRefused(c, run1, x, y, z);
    assert Stale(c, At(c, refused).value) == {};
    var run2 := SnapAndRaise(x, y, z, timing, refused, x, MIN_JITTER);
    var run3 := PollBoth(c, run2, x, y, z);
    run := HaltAndHold(c, run3, x);
  }

  // ---- The state, read off the run -----------------------------------------

  /** The time that has passed. */
  function Clock(run: seq<Event>): nat {
    if run == [] then 0
    else Clock(run[..|run| - 1]) + match run[|run| - 1] case Tick(d) => d case _ => 0
  }

  /** What an event does to the times kept of p: when each begins and when it ends. */
  ghost predicate Marked(s: NetState, t: NetState, v: Event, p: Node)
    requires p in s.phase ==> p in t.phase
  {
    var over := v == Protocol(Release(p)) || (v == Protocol(Decide(p)) && p in s.phase && t.phase[p].Resting?);
    && (p in t.down <==> v == Halt(p) || (p in s.down && v != Protocol(StartOk(p))))
    && (p in t.held <==> v == Protocol(StopOk(p)) || (p in s.held && v != Protocol(Release(p))))
    && (p in t.raised <==> v == Protocol(Raise(p)) || (p in s.raised && !over))
    && (p in t.snapshot <==> (v.Snapshot? && v.p == p) || (p in s.snapshot && !over))
    && (p in t.down ==> t.down[p] == if v == Halt(p) then s.now else s.down[p])
    && (p in t.held ==> t.held[p] == if v == Protocol(StopOk(p)) then s.now else s.held[p])
    && (p in t.raised ==> t.raised[p] == if v == Protocol(Raise(p)) then s.now else s.raised[p])
    && (p in t.snapshot ==> t.snapshot[p] == if v.Snapshot? && v.p == p then s.now else s.snapshot[p])
    && t.now == s.now + match v case Tick(d) => d case _ => 0
  }

  lemma ValidatingMarks(c: Config, s: NetState, e: Step, p: Node)
    requires c.net.Valid() && s.phase.Keys == c.net.nodes && Possible(c, s, Protocol(e)) && Validating(e)
    ensures Marked(s, Next(c, s, Protocol(e)), Protocol(e), p)
  {
  }

  lemma StoppingMarks(c: Config, s: NetState, e: Step, p: Node)
    requires c.net.Valid() && s.phase.Keys == c.net.nodes && Possible(c, s, Protocol(e)) && !Validating(e)
    ensures Marked(s, Next(c, s, Protocol(e)), Protocol(e), p)
  {
  }

  lemma EventMarks(c: Config, s: NetState, v: Event, p: Node)
    requires c.net.Valid() && s.phase.Keys == c.net.nodes && Possible(c, s, v)
    ensures Marked(s, Next(c, s, v), v, p)
  {
    match v
    case Tick(_) =>
    case Snapshot(_, _) =>
    case Halt(_) =>
    case Protocol(e) =>
      if Validating(e) {
        ValidatingMarks(c, s, e, p);
      } else {
        StoppingMarks(c, s, e, p);
      }
  }

  lemma LastEvent(c: Config, run: seq<Event>)
    requires c.net.Valid() && run != [] && At(c, run).Some?
    ensures At(c, run[..|run| - 1]).Some? && Possible(c, At(c, run[..|run| - 1]).value, run[|run| - 1])
    ensures At(c, run).value == Next(c, At(c, run[..|run| - 1]).value, run[|run| - 1])
  {
  }

  lemma {:induction false} NowFromRun(c: Config, run: seq<Event>)
    requires c.net.Valid() && At(c, run).Some?
    ensures At(c, run).value.now == Clock(run)
    decreases |run|
  {
    if run != [] {
      LastEvent(c, run);
      NowFromRun(c, run[..|run| - 1]);
      EventMarks(c, At(c, run[..|run| - 1]).value, run[|run| - 1], "");
    }
  }

  /** Main result: in every run a client is down exactly if it went down and was not
      started since, and a flag is held exactly from the end of the stop to its release. */
  lemma {:induction false} DownFromRun(c: Config, run: seq<Event>, p: Node)
    requires c.net.Valid() && At(c, run).Some?
    ensures p in At(c, run).value.down <==>
            Since(run, (v: Event) => v == Halt(p), (v: Event) => v == Protocol(StartOk(p)))
    ensures p in At(c, run).value.held <==>
            Since(run, (v: Event) => v == Protocol(StopOk(p)), (v: Event) => v == Protocol(Release(p)))
    decreases |run|
  {
    if run != [] {
      LastEvent(c, run);
      DownFromRun(c, run[..|run| - 1], p);
      EventMarks(c, At(c, run[..|run| - 1]).value, run[|run| - 1], p);
      SinceSnoc(run, (v: Event) => v == Halt(p), (v: Event) => v == Protocol(StartOk(p)));
      SinceSnoc(run, (v: Event) => v == Protocol(StopOk(p)), (v: Event) => v == Protocol(Release(p)));
    }
  }

  /** It has been down since that moment. */
  lemma {:induction false} DownSince(c: Config, run: seq<Event>, p: Node) returns (i: nat)
    requires c.net.Valid() && At(c, run).Some? && p in At(c, run).value.down
    ensures i < |run| && run[i] == Halt(p) && Protocol(StartOk(p)) !in run[i..]
    ensures At(c, run).value.down[p] == Clock(run[..i])
    decreases |run|
  {
    var front, v := run[..|run| - 1], run[|run| - 1];
    LastEvent(c, run);
    EventMarks(c, At(c, front).value, v, p);
    if v == Halt(p) {
      i := |run| - 1;
      NowFromRun(c, front);
      assert run[i..] == [v];
    } else {
      i := DownSince(c, front, p);
      assert run[i..] == front[i..] + [v] && front[..i] == run[..i];
    }
  }

  /** p took a snapshot and has not raised its flag since. */
  ghost predicate AboutToRaise(run: seq<Event>, p: Node) {
    Since(run, (v: Event) => v.Snapshot? && v.p == p, (v: Event) => v == Protocol(Raise(p)))
  }

  /** The times of a stop: the flag's is there exactly while the flag is up for a
      stop, the snapshot's from the snapshot until the stop is over. */
  lemma {:induction false} StopTimesFromRun(c: Config, run: seq<Event>, p: Node)
    requires c.net.Valid() && At(c, run).Some? && p in c.net.nodes
    ensures var s := At(c, run).value;
            && (p in s.raised <==> s.phase[p].Polling? || s.phase[p].Stopping? || s.phase[p].Holding?)
            && (p in s.raised ==> p in s.snapshot)
            && (p !in s.raised ==> (p in s.snapshot <==> AboutToRaise(run, p)))
            && (p in s.raised ==> !AboutToRaise(run, p))
            && !s.phase[p].Stuck? && !s.phase[p].StartStuck?
    decreases |run|
  {
    if run != [] {
      var s, v := At(c, run[..|run| - 1]).value, run[|run| - 1];
      LastEvent(c, run);
      StopTimesFromRun(c, run[..|run| - 1], p);
      EventMarks(c, s, v, p);
      PhaseAfter(c, s, v, p);
      SinceSnoc(run, (v: Event) => v.Snapshot? && v.p == p, (v: Event) => v == Protocol(Raise(p)));
    }
  }

  lemma PhaseAfter(c: Config, s: NetState, v: Event, p: Node)
    requires c.net.Valid() && s.phase.Keys == c.net.nodes && Possible(c, s, v) && p in c.net.nodes
    ensures Next(c, s, v).phase[p] ==
            if v.Protocol? && v.e.p == p then NextPhase(c.net, s.phase, v.e) else s.phase[p]
  {
    match v
    case Protocol(e) => ProtocolOnlyRemoves(c, s, e);
    case _ =>
  }

  /** When a hibernator may take a snapshot: at rest, with its client up and no stop
      under way; a member also needs a faithful report that the engine accepts. */
  lemma SnapshotsAllowed(c: Config, run: seq<Event>, p: Node, o: Observation)
    requires c.net.Valid() && At(c, run).Some? && p in c.net.nodes
    ensures Possible(c, At(c, run).value, Snapshot(p, o)) <==>
            && At(c, run).value.phase[p].Resting?
            && !Since(run, (v: Event) => v == Halt(p), (v: Event) => v == Protocol(StartOk(p)))
            && !Since(run, (v: Event) => v.Snapshot? && v.p == p, (v: Event) => v == Protocol(Raise(p)))
            && (p in c.members ==>
                  p !in c.strict && o.Engine() == c.engine && o.Accepts() &&
                  o.Faithful(c.members, Stale(c, At(c, run).value)))
  {
    DownFromRun(c, run, p);
    StopTimesFromRun(c, run, p);
  }

  /** Time may pass at any moment; a client can go down exactly while it is being
      stopped and is up; an error, a verdict and a successful start come at any time. */
  lemma EventsAllowed(c: Config, run: seq<Event>, p: Node, q: Node, d: nat)
    requires c.net.Valid() && At(c, run).Some? && p in c.net.nodes
    ensures var s := At(c, run).value;
            && Possible(c, s, Tick(d))
            && (Possible(c, s, Halt(p)) <==>
                s.phase[p].Stopping? &&
                !Since(run, (v: Event) => v == Halt(p), (v: Event) => v == Protocol(StartOk(p))))
            && (Possible(c, s, Protocol(Refuse(p, q))) <==> Enabled(c.net, s.phase, Refuse(p, q)))
            && (Possible(c, s, Protocol(Decide(p))) <==> Enabled(c.net, s.phase, Decide(p)))
            && (Possible(c, s, Protocol(StartOk(p))) <==> Enabled(c.net, s.phase, StartOk(p)))
  {
    DownFromRun(c, run, p);
  }

  // ---- What does not depend on time ----------------------------------------

  /** The steps of the protocol in a timed run. */
  function ProtocolSteps(run: seq<Event>): seq<Step> {
    if run == [] then [] else
      ProtocolSteps(run[..|run| - 1]) + match run[|run| - 1] case Protocol(e) => [e] case _ => []
  }

  /** Every timed run projects to a run of the protocol. */
  lemma {:induction false} ProjectsToProtocol(c: Config, run: seq<Event>)
    requires c.net.Valid() && At(c, run).Some?
    ensures After(c.net, ProtocolSteps(run)) == Some(At(c, run).value.phase)
    decreases |run|
  {
    if run != [] {
      var n := |run| - 1;
      ProjectsToProtocol(c, run[..n]);
      var s := At(c, run[..n]).value;
      match run[n]
      case Protocol(e) =>
        ProtocolOnlyRemoves(c, s, e);
        AfterSnoc(c.net, ProtocolSteps(run[..n]), e);
      case _ =>
        assert At(c, run).value.phase == s.phase;
        assert ProtocolSteps(run) == ProtocolSteps(run[..n]);
    }
  }

  /** So mutual exclusion carries over, however short the hold. */
  lemma OneShutdownAtATime(c: Config, run: seq<Event>)
    requires c.net.Valid() && c.net.FullyCovered() && At(c, run).Some?
    ensures Exclusive(At(c, run).value.phase)
  {
    ProjectsToProtocol(c, run);
    ShutdownGuard.RunsKeepInv(c.net, ProtocolSteps(run));
    ClearedExcludes(c.net, At(c, run).value.phase);
  }

  /** A consensus member whose hibernator is in strict mode never goes down, and
      never even raises its flag. */
  lemma {:induction false} StrictMembersStayUp(c: Config, run: seq<Event>, p: Node)
    requires c.net.Valid() && p in c.strict && p in c.members && At(c, run).Some?
    ensures p !in At(c, run).value.down && p !in At(c, run).value.snapshot
    ensures p in c.net.nodes ==> At(c, run).value.phase[p].Resting?
    decreases |run|
  {
    if run != [] {
      StrictMembersStayUp(c, run[..|run| - 1], p);
      StrictStep(c, At(c, run[..|run| - 1]).value, run[|run| - 1], p);
    }
  }

  lemma StrictStep(c: Config, s: NetState, v: Event, p: Node)
    requires c.net.Valid() && s.phase.Keys == c.net.nodes && Possible(c, s, v) && p in c.strict && p in c.members
    requires p !in s.down && p !in s.snapshot && (p in c.net.nodes ==> s.phase[p].Resting?)
    ensures var t := Next(c, s, v);
            p !in t.down && p !in t.snapshot && (p in c.net.nodes ==> t.phase[p].Resting?)
  {
    match v
    case Tick(_) =>
    case Snapshot(_, _) =>
    case Halt(_) =>
    case Protocol(e) => ProtocolOnlyRemoves(c, s, e);
  }
}
