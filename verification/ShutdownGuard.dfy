/** The protocol by which node hibernators keep from stopping their clients at
    the same time: a hibernator raises its own flag and then reads the flag of
    every peer, one answer at a time, in any order and interleaving. */
module ShutdownGuard {
  import opened Basics
  import opened Core

  /** The name of a node hibernator. */
  type Node = string

  /** What arrives from one peer: a status, or an error. */
  datatype Reply = Answered(status: NodeStatus) | Refused

  /** A reply that does not speak against shutting down. */
  predicate Clears(r: Reply) {
    r.Answered? && r.status != ShutdownInprogress && r.status != ConsensusWait
  }

  /** How far a hibernator is with stopping or starting its client. */
  datatype Phase =
    | Resting                             // free, or before the flag is raised
    | Polling(replies: map<Node, Reply>)  // flag raised, replies arriving
    | Stopping                            // all peers cleared, processes being stopped
    | Stuck                               // a process failed to stop
    | Holding                             // processes stopped, waiting for consensus
    | Starting
    | StartStuck                          // a process failed to start

  /** The flag that peers see in each phase. */
  function Flag(phase: Phase): NodeStatus {
    match phase
    case Resting => OK
    case Polling(_) => ShutdownInprogress
    case Stopping => ShutdownInprogress
    case Stuck => ShutdownInprogress
    case Holding => ConsensusWait
    case Starting => StartupInprogress
    case StartStuck => StartupInprogress
  }

  /** Past the peer validation with the flag still up. */
  predicate Past(phase: Phase) {
    phase.Stopping? || phase.Stuck? || phase.Holding?
  }

  /** peers[p] are the peers that p polls; a pair (p, q) is lossy when p's call
      to q can fail. */
  datatype Network = Network(nodes: set<Node>, peers: map<Node, set<Node>>, lossy: set<(Node, Node)>) {
    predicate Valid() {
      && peers.Keys == nodes
      && forall p :: p in nodes ==> peers[p] <= nodes - {p}
    }

    /** p gets a real answer from q whenever it validates its peers. */
    predicate Covered(p: Node, q: Node)
      requires Valid() && p in nodes
    {
      q in peers[p] && (p, q) !in lossy
    }

    /** Every hibernator lists all the others and every call is answered. */
    predicate FullyCovered()
      requires Valid()
    {
      forall p, q :: p in nodes && q in nodes && p != q ==> Covered(p, q)
    }
  }

  type State = map<Node, Phase>

  datatype Step =
    | Raise(p: Node)
    | Answer(p: Node, q: Node)   // p reads q's flag
    | Lose(p: Node, q: Node)     // p's call to q fails
    | Refuse(p: Node, q: Node)   // q's reply carries an error
    | Decide(p: Node)
    | StopOk(p: Node)
    | StopFail(p: Node)
    | Release(p: Node)
    | BeginStart(p: Node)
    | StartOk(p: Node)
    | StartFail(p: Node)

  predicate Awaits(net: Network, s: State, p: Node, q: Node)
    requires net.Valid() && s.Keys == net.nodes
  {
    p in s && s[p].Polling? && q in net.peers[p] && q !in s[p].replies
  }

  predicate Enabled(net: Network, s: State, e: Step)
    requires net.Valid() && s.Keys == net.nodes
  {
    && e.p in s
    && match e
       case Raise(p) => s[p].Resting?
       case Answer(p, q) => Awaits(net, s, p, q)
       case Lose(p, q) => Awaits(net, s, p, q) && (p, q) in net.lossy
       case Refuse(p, q) => Awaits(net, s, p, q)
       case Decide(p) => s[p].Polling? && s[p].replies.Keys == net.peers[p]
       case StopOk(p) => s[p].Stopping?
       case StopFail(p) => s[p].Stopping?
       case Release(p) => s[p].Holding?
       case BeginStart(p) => s[p].Resting? || s[p].Stuck? || s[p].StartStuck?
       case StartOk(p) => s[p].Starting?
       case StartFail(p) => s[p].Starting?
  }

  /** The verdict of validating the peers once all replies are in. */
  predicate AllClear(replies: map<Node, Reply>) {
    forall q :: q in replies ==> Clears(replies[q])
  }

  /** The phase that a step moves its hibernator to.  A failed call is recorded
      with the zero status, as the code does, and so is not noticed. */
  function NextPhase(net: Network, s: State, e: Step): Phase
    requires net.Valid() && s.Keys == net.nodes && Enabled(net, s, e)
  {
    match e
    case Raise(_) => Polling(map[])
    case Answer(p, q) => Polling(s[p].replies[q := Answered(Flag(s[q]))])
    case Lose(p, q) => Polling(s[p].replies[q := Answered(Unset)])
    case Refuse(p, q) => Polling(s[p].replies[q := Refused])
    case Decide(p) => if AllClear(s[p].replies) then Stopping else Resting
    case StopOk(_) => Holding
    case StopFail(_) => Stuck
    case Release(_) => Resting
    case BeginStart(_) => Starting
    case StartOk(_) => Resting
    case StartFail(_) => StartStuck
  }

  function Apply(net: Network, s: State, e: Step): (t: State)
    requires net.Valid() && s.Keys == net.nodes && Enabled(net, s, e)
    ensures t.Keys == net.nodes
  {
    s[e.p := NextPhase(net, s, e)]
  }

  function Init(net: Network): State {
    map p | p in net.nodes :: Resting
  }

  /** The state a run of steps leads to; None if some step could not happen. */
  ghost function After(net: Network, steps: seq<Step>): (r: Option<State>)
    requires net.Valid()
    ensures r.Some? ==> r.value.Keys == net.nodes
    decreases |steps|
  {
    if steps == [] then Some(Init(net)) else
      match After(net, steps[..|steps| - 1])
      case None => None
      case Some(s) =>
        if Enabled(net, s, steps[|steps| - 1]) then Some(Apply(net, s, steps[|steps| - 1])) else None
  }

  /** At most one hibernator is past peer validation with its flag up. */
  predicate Exclusive(s: State) {
    forall p, q :: p in s && q in s && p != q ==> !(Past(s[p]) && Past(s[q]))
  }

  /** The phases from the verdict of the peers to the end of the hold. */
  lemma PastPhases(phase: Phase)
    ensures Past(phase) <==> phase.Stopping? || phase.Stuck? || phase.Holding?
    ensures Past(phase) || phase.Polling? <==> Flag(phase) in {ShutdownInprogress, ConsensusWait}
  {
  }

  // ---- Mutual exclusion ----------------------------------------------------

  /** q can no longer stand in p's way: p is past, or holds q's clearing reply. */
  predicate Cleared(s: State, p: Node, q: Node)
    requires p in s
  {
    Past(s[p]) || (s[p].Polling? && q in s[p].replies && Clears(s[p].replies[q]))
  }

  /** The inductive invariant: no two hibernators have cleared each other. */
  predicate Inv(net: Network, s: State)
    requires net.Valid()
  {
    && s.Keys == net.nodes
    && forall p, q :: p in s && q in s && p != q ==> !(Cleared(s, p, q) && Cleared(s, q, p))
  }

  lemma InvHoldsInitially(net: Network)
    requires net.Valid()
    ensures Inv(net, Init(net))
  {
  }

  lemma InvIsKept(net: Network, s: State, e: Step)
    requires net.Valid() && net.FullyCovered() && Inv(net, s) && Enabled(net, s, e)
    ensures Inv(net, Apply(net, s, e))
  {
    var t, p := Apply(net, s, e), e.p;
    forall q | q in t && q != p ensures !(Cleared(t, p, q) && Cleared(t, q, p)) {
      assert !(Cleared(s, p, q) && Cleared(s, q, p));
      assert net.Covered(p, q);
      assert Cleared(t, q, p) == Cleared(s, q, p);
    }
    forall q, r | q in t && r in t && q != r && q != p && r != p ensures !(Cleared(t, q, r) && Cleared(t, r, q)) {
      assert !(Cleared(s, q, r) && Cleared(s, r, q));
    }
  }

  lemma {:induction false} RunsKeepInv(net: Network, steps: seq<Step>)
    requires net.Valid() && net.FullyCovered() && After(net, steps).Some?
    ensures Inv(net, After(net, steps).value)
    decreases |steps|
  {
    if steps == [] {
      InvHoldsInitially(net);
    } else {
      var n := |steps| - 1;
      RunsKeepInv(net, steps[..n]);
      InvIsKept(net, After(net, steps[..n]).value, steps[n]);
    }
  }

  // ---- The condition is exact ----------------------------------------------

  lemma AfterSnoc(net: Network, steps: seq<Step>, e: Step)
    requires net.Valid() && After(net, steps).Some? && Enabled(net, After(net, steps).value, e)
    ensures After(net, steps + [e]) == Some(Apply(net, After(net, steps).value, e))
  {
    assert (steps + [e])[..|steps|] == steps;
  }

  /** Peers at rest, starting or stuck in a start do not stand in p's way, nor does
      one whose call is lost. */
  predicate CanPass(net: Network, s: State, p: Node)
    requires net.Valid() && p in net.nodes && s.Keys == net.nodes
  {
    forall q :: q in net.peers[p] ==>
      s[q].Resting? || s[q].Starting? || s[q].StartStuck? || (p, q) in net.lossy
  }

  /** p is collecting replies; those it has are r, and they clear. */
  ghost predicate Collecting(net: Network, steps: seq<Step>, p: Node, s: State, r: map<Node, Reply>)
    requires net.Valid() && p in net.nodes && s.Keys == net.nodes
  {
    && After(net, steps) == Some(s[p := Polling(r)])
    && CanPass(net, s, p)
    && AllClear(r)
    && r.Keys <= net.peers[p]
  }

  /** One more reply for p, and it clears. */
  lemma CollectOne(net: Network, steps: seq<Step>, p: Node, s: State, r: map<Node, Reply>, q: Node)
    returns (e: Step, r': map<Node, Reply>)
    requires net.Valid() && p in net.nodes && s.Keys == net.nodes && Collecting(net, steps, p, s, r)
    requires q in net.peers[p] && q !in r
    ensures r'.Keys == r.Keys + {q} && Collecting(net, steps + [e], p, s, r') && e.p == p
  {
    var mid := s[p := Polling(r)];
    e := if (p, q) in net.lossy then Lose(p, q) else Answer(p, q);
    AfterSnoc(net, steps, e);
    r' := NextPhase(net, mid, e).replies;
    assert mid[p := Polling(r')] == s[p := Polling(r')];
  }

  /** Collects the outstanding replies of p, all of them clearing. */
  lemma {:induction false} CollectReplies(net: Network, steps: seq<Step>, p: Node, s: State, r: map<Node, Reply>)
    returns (more: seq<Step>, r': map<Node, Reply>)
    requires net.Valid() && p in net.nodes && s.Keys == net.nodes && Collecting(net, steps, p, s, r)
    ensures r'.Keys == net.peers[p] && Collecting(net, more, p, s, r')
    ensures steps <= more && forall e :: e in more[|steps|..] ==> e.p == p
    decreases net.peers[p] - r.Keys
  {
    if q :| q in net.peers[p] && q !in r {
      var e, r1 := CollectOne(net, steps, p, s, r, q);
      assert net.peers[p] - r1.Keys < net.peers[p] - r.Keys by {
        assert q in net.peers[p] - r.Keys;
      }
      more, r' := CollectReplies(net, steps + [e], p, s, r1);
    } else {
      more, r' := steps, r;
    }
  }

  /** A hibernator at rest that nobody can stop gets past validation. */
  lemma PassValidation(net: Network, steps: seq<Step>, p: Node) returns (more: seq<Step>)
    requires net.Valid() && p in net.nodes && After(net, steps).Some?
    requires var s := After(net, steps).value; s[p].Resting? && CanPass(net, s, p)
    ensures After(net, more) == Some(After(net, steps).value[p := Stopping])
    ensures steps <= more && forall e :: e in more[|steps|..] ==> e.p == p
  {
    var s := After(net, steps).value;
    AfterSnoc(net, steps, Raise(p));
    var polled, r := CollectReplies(net, steps + [Raise(p)], p, s, map[]);
    AfterSnoc(net, polled, Decide(p));
    more := polled + [Decide(p)];
    assert After(net, more).value == s[p := Stopping];
  }

  /** While q is being stopped, is stuck, holds or polls itself, p gets nowhere by
      its own steps, unless its call to q can be lost. */
  lemma {:induction false} StopperBlocks(net: Network, steps: seq<Step>, p: Node, q: Node, more: seq<Step>)
    requires net.Valid() && p in net.nodes && q in net.peers[p] && (p, q) !in net.lossy
    requires After(net, steps).Some? && After(net, steps).value[p].Resting?
    requires var f := After(net, steps).value[q]; f.Polling? || f.Stopping? || f.Stuck? || f.Holding?
    requires After(net, steps + more).Some? && forall e :: e in more ==> e.p == p
    ensures var s, t := After(net, steps).value, After(net, steps + more).value;
            && t[q] == s[q] && !Past(t[p])
            && (t[p].Polling? && q in t[p].replies ==> !Clears(t[p].replies[q]))
    decreases |more|
  {
    if more == [] {
      assert steps + more == steps;
    } else {
      var front, e := more[..|more| - 1], more[|more| - 1];
      assert more == front + [e] && steps + more == steps + front + [e];
      assert (steps + front + [e])[..|steps + front|] == steps + front;
      StopperBlocks(net, steps, p, q, front);
      BlockedStep(net, After(net, steps + front).value, p, q, e);
    }
  }

  lemma BlockedStep(net: Network, s: State, p: Node, q: Node, e: Step)
    requires net.Valid() && s.Keys == net.nodes && p in s && q in net.peers[p] && (p, q) !in net.lossy
    requires !Past(s[p]) && (s[p].Polling? && q in s[p].replies ==> !Clears(s[p].replies[q]))
    requires (s[q].Polling? || s[q].Stopping? || s[q].Stuck? || s[q].Holding?) && Enabled(net, s, e) && e.p == p
    ensures var t := Apply(net, s, e);
            && t[q] == s[q] && !Past(t[p])
            && (t[p].Polling? && q in t[p].replies ==> !Clears(t[p].replies[q]))
  {
  }

  /** Main result: a hibernator at rest can get past validation by its own steps
      and its peers' answers if and only if every peer whose call cannot be lost is
      at rest, starting or stuck in a start. */
  lemma PassesIffNobodyStops(net: Network, steps: seq<Step>, p: Node)
    requires net.Valid() && p in net.nodes && After(net, steps).Some? && After(net, steps).value[p].Resting?
    ensures (exists more :: After(net, steps + more).Some? && (forall e :: e in more ==> e.p == p)
                            && After(net, steps + more).value[p].Stopping?)
            <==> forall q :: q in net.peers[p] && (p, q) !in net.lossy ==>
                   var f := After(net, steps).value[q]; f.Resting? || f.Starting? || f.StartStuck?
  {
    var s := After(net, steps).value;
    if CanPass(net, s, p) {
      var more := OwnSteps(net, steps, p);
    }
    if more :| After(net, steps + more).Some? && (forall e :: e in more ==> e.p == p)
               && After(net, steps + more).value[p].Stopping? {
      forall q | q in net.peers[p] && (p, q) !in net.lossy ensures s[q].Resting? || s[q].Starting? || s[q].StartStuck? {
        if !(s[q].Resting? || s[q].Starting? || s[q].StartStuck?) {
          StopperBlocks(net, steps, p, q, more);
        }
      }
    }
  }

  lemma OwnSteps(net: Network, steps: seq<Step>, p: Node) returns (more: seq<Step>)
    requires net.Valid() && p in net.nodes && After(net, steps).Some?
    requires After(net, steps).value[p].Resting? && CanPass(net, After(net, steps).value, p)
    ensures After(net, steps + more).Some? && (forall e :: e in more ==> e.p == p)
    ensures After(net, steps + more).value[p].Stopping?
  {
    var all := PassValidation(net, steps, p);
    more := all[|steps|..];
    assert steps + more == all;
  }

  /** The verdict of validation, read off the replies. */
  lemma VerdictOnReplies(net: Network, s: State, p: Node)
    requires net.Valid() && s.Keys == net.nodes && Enabled(net, s, Decide(p))
    ensures Apply(net, s, Decide(p)) == s[p := if forall q :: q in net.peers[p] ==>
                                                 var r := s[p].replies[q];
                                                 r.Answered? && r.status !in {ShutdownInprogress, ConsensusWait}
                                               then Stopping else Resting]
  {
    assert s[p].replies.Keys == net.peers[p];
  }

  /** What a hibernator that polls has of a peer, read off the run: nothing until a
      reply since its flag went up; an error, or else a status, zero if the call was
      lost. */
  lemma {:induction false} RepliesFromSteps(net: Network, steps: seq<Step>, p: Node, q: Node)
    requires net.Valid() && p in net.nodes && After(net, steps).Some? && After(net, steps).value[p].Polling?
    ensures var r := After(net, steps).value[p].replies;
            && (q in r <==> Since(steps, (e: Step) => e == Answer(p, q) || e == Lose(p, q) || e == Refuse(p, q),
                                         (e: Step) => e == Raise(p)))
            && (q in r && r[q].Refused? <==>
                Since(steps, (e: Step) => e == Refuse(p, q), (e: Step) => e == Raise(p)))
            && (Since(steps, (e: Step) => e == Lose(p, q), (e: Step) => e == Raise(p)) ==>
                q in r && r[q] == Answered(Unset))
    decreases |steps|
  {
    if steps != [] {
      var front, last := steps[..|steps| - 1], steps[|steps| - 1];
      if last != Raise(p) {
        RepliesFromSteps(net, front, p, q);
      }
      SinceSnoc(steps, (e: Step) => e == Answer(p, q) || e == Lose(p, q) || e == Refuse(p, q),
                       (e: Step) => e == Raise(p));
      SinceSnoc(steps, (e: Step) => e == Refuse(p, q), (e: Step) => e == Raise(p));
      SinceSnoc(steps, (e: Step) => e == Lose(p, q), (e: Step) => e == Raise(p));
    }
  }

  /** A status that is not zero is the flag the peer had at the moment it answered,
      after p's own flag went up. */
  lemma {:induction false} AnswersAreFlags(net: Network, steps: seq<Step>, p: Node, q: Node) returns (i: nat)
    requires net.Valid() && p in net.nodes && After(net, steps).Some? && After(net, steps).value[p].Polling?
    requires var r := After(net, steps).value[p].replies; q in r && r[q].Answered? && r[q].status != Unset
    ensures i < |steps| && steps[i] == Answer(p, q) && Raise(p) !in steps[i..]
    ensures After(net, steps[..i]).Some? && q in net.nodes
    ensures After(net, steps).value[p].replies[q] == Answered(Flag(After(net, steps[..i]).value[q]))
    decreases |steps|
  {
    var front, last := steps[..|steps| - 1], steps[|steps| - 1];
    if last == Answer(p, q) {
      i := |steps| - 1;
      assert steps[i..] == [last];
    } else {
      i := AnswersAreFlags(net, front, p, q);
      assert front[..i] == steps[..i] && steps[i..] == front[i..] + [last];
    }
  }

  /** If q does not surely learn p's flag, a run takes both past validation. */
  lemma UncoveredPairCollides(net: Network, p: Node, q: Node) returns (steps: seq<Step>)
    requires net.Valid() && p in net.nodes && q in net.nodes && p != q
    requires !net.Covered(q, p)
    ensures After(net, steps).Some? && !Exclusive(After(net, steps).value)
  {
    var first := PassValidation(net, [], p);
    steps := PassValidation(net, first, q);
    var s := After(net, steps).value;
    assert Past(s[p]) && Past(s[q]);
  }

  lemma ExclusiveMeans(s: State)
    ensures Exclusive(s) <==>
            forall p, q :: p in s && q in s && p != q ==>
              !((s[p].Stopping? || s[p].Stuck? || s[p].Holding?) && (s[q].Stopping? || s[q].Stuck? || s[q].Holding?))
  {
  }

  lemma CoverMeans(net: Network)
    requires net.Valid()
    ensures net.FullyCovered() <==>
            forall p, q :: p in net.nodes && q in net.nodes && p != q ==> q in net.peers[p] && (p, q) !in net.lossy
  {
  }

  /** Main result: in every run, whatever the interleaving of single replies, at
      most one hibernator is past validation with its flag up -- if and only if
      all list each other and no call between them is lost. */
  lemma ExclusionIffCovered(net: Network)
    requires net.Valid()
    ensures (forall steps: seq<Step> :: After(net, steps).Some? ==> Exclusive(After(net, steps).value))
            <==> net.FullyCovered()
  {
    if net.FullyCovered() {
      forall steps: seq<Step> | After(net, steps).Some? ensures Exclusive(After(net, steps).value) {
        RunsKeepInv(net, steps);
        ClearedExcludes(net, After(net, steps).value);
      }
    } else {
      var q, p :| q in net.nodes && p in net.nodes && q != p && !net.Covered(q, p);
      var steps := UncoveredPairCollides(net, p, q);
    }
  }

  lemma ClearedExcludes(net: Network, s: State)
    requires net.Valid() && Inv(net, s)
    ensures Exclusive(s)
  {
    forall p, q | p in s && q in s && p != q ensures !(Past(s[p]) && Past(s[q])) {
      assert !(Cleared(s, p, q) && Cleared(s, q, p));
    }
  }
}
