/** A network of node hibernators, each running its own code, and the shutdown
    protocol: the two have the same runs, as far as peers can see. */
module NodeProtocol {
  import opened Basics
  import opened Core
  import NM = NodeMachine
  import SG = ShutdownGuard

  type Replies = map<SG.Node, SG.Reply>

  /** The phase in which the protocol sees a hibernator with these replies. */
  function PhaseOf(s: NM.Node, replies: Replies): SG.Phase {
    if NM.Untouched(s.pc) then
      match s.nodeStatus
      case ShutdownInprogress => SG.Stuck
      case StartupInprogress => SG.StartStuck
      case _ => SG.Resting
    else if s.pc.StopPolling? then SG.Polling(replies)
    else if s.pc.StopStopping? || s.pc.StopMarked? then SG.Stopping
    else if s.pc.StopHolding? then SG.Holding
    else SG.Starting
  }

  /** What peers read is the status that the code keeps. */
  lemma FlagIsNodeStatus(s: NM.Node, replies: Replies)
    requires NM.StatusFits(s)
    ensures SG.Flag(PhaseOf(s, replies)) == s.nodeStatus
  {
  }

  /** The step of the protocol that a step of the code amounts to, if any. */
  function ProtocolStep(p: SG.Node, e: NM.Step): Option<SG.Step> {
    match e
    case Raise => Some(SG.Raise(p))
    case PeersAccept => Some(SG.Decide(p))
    case PeersReject => Some(SG.Decide(p))
    case StopsFail => Some(SG.StopFail(p))
    case BeginWait => Some(SG.StopOk(p))
    case EndWait => Some(SG.Release(p))
    case BeginStart => Some(SG.BeginStart(p))
    case FinishStart => Some(SG.StartOk(p))
    case StartsFail => Some(SG.StartFail(p))
    case _ => None
  }

  predicate Silent(e: NM.Step) {
    ProtocolStep("", e).None?
  }

  predicate IsVerdict(e: NM.Step) {
    e.PeersAccept? || e.PeersReject?
  }

  lemma SilentStepRefines(c: NM.Config, s: NM.Node, e: NM.Step, replies: Replies)
    requires NM.StatusFits(s) && NM.Enabled(c, s, e) && Silent(e)
    ensures PhaseOf(NM.Apply(c, s, e), replies) == PhaseOf(s, replies)
  {
    if NM.OfStop(e) {
      SilentStopStep(c, s, e, replies);
    } else {
      SilentOtherStep(c, s, e, replies);
    }
  }

  lemma SilentStopStep(c: NM.Config, s: NM.Node, e: NM.Step, replies: Replies)
    requires NM.StatusFits(s) && NM.Enabled(c, s, e) && Silent(e) && NM.OfStop(e)
    ensures PhaseOf(NM.Apply(c, s, e), replies) == PhaseOf(s, replies)
  {
  }

  lemma SilentOtherStep(c: NM.Config, s: NM.Node, e: NM.Step, replies: Replies)
    requires NM.StatusFits(s) && NM.Enabled(c, s, e) && Silent(e) && !NM.OfStop(e)
    ensures PhaseOf(NM.Apply(c, s, e), replies) == PhaseOf(s, replies)
  {
  }

  /** The replies after a step of the code: raising the flag forgets the old ones. */
  function RepliesAfter(e: NM.Step, replies: Replies): Replies {
    if e.Raise? then map[] else replies
  }

  /** Every other step of the code is the corresponding step of the protocol. */
  lemma StepRefines(c: NM.Config, s: NM.Node, e: NM.Step, net: SG.Network, g: SG.State, p: SG.Node, replies: Replies)
    requires NM.StatusFits(s) && NM.Enabled(c, s, e) && !Silent(e)
    requires net.Valid() && g.Keys == net.nodes && p in g && g[p] == PhaseOf(s, replies)
    requires IsVerdict(e) ==> replies.Keys == net.peers[p] && (SG.AllClear(replies) <==> e.PeersAccept?)
    ensures var d := ProtocolStep(p, e).value;
            SG.Enabled(net, g, d) && SG.NextPhase(net, g, d) == PhaseOf(NM.Apply(c, s, e), RepliesAfter(e, replies))
  {
    match e
    case Raise =>
    case PeersAccept =>
    case PeersReject =>
    case StopsFail =>
    case BeginWait =>
    case EndWait =>
    case BeginStart =>
    case FinishStart =>
    case StartsFail =>
  }

  // ---- The network of machines ---------------------------------------------

  /** The machine of every hibernator, and the replies its last poll has brought. */
  datatype State = State(nodes: map<SG.Node, NM.Node>, replies: map<SG.Node, Replies>)

  datatype NetStep =
    | Local(p: SG.Node, e: NM.Step)      // p's code takes a step
    | Answer(p: SG.Node, q: SG.Node)     // q's status reaches p
    | Lose(p: SG.Node, q: SG.Node)       // p's call to q fails
    | Refuse(p: SG.Node, q: SG.Node)     // q's reply carries an error

  type Configs = map<SG.Node, NM.Config>

  predicate Valid(net: SG.Network, cs: Configs) {
    net.Valid() && cs.Keys == net.nodes
  }

  predicate Shaped(net: SG.Network, s: State) {
    s.nodes.Keys == net.nodes && s.replies.Keys == net.nodes
  }

  predicate Awaits(net: SG.Network, s: State, p: SG.Node, q: SG.Node)
    requires net.Valid() && Shaped(net, s) && p in net.nodes
  {
    s.nodes[p].pc.StopPolling? && q in net.peers[p] && q !in s.replies[p]
  }

  /** The verdict on the peers is that of the replies, once all are in. */
  predicate CanStep(net: SG.Network, cs: Configs, s: State, e: NetStep)
    requires Valid(net, cs) && Shaped(net, s)
  {
    && e.p in net.nodes
    && match e
       case Local(p, x) =>
         && NM.Enabled(cs[p], s.nodes[p], x)
         && (IsVerdict(x) ==> s.replies[p].Keys == net.peers[p] && (SG.AllClear(s.replies[p]) <==> x.PeersAccept?))
       case Answer(p, q) => Awaits(net, s, p, q)
       case Lose(p, q) => Awaits(net, s, p, q) && (p, q) in net.lossy
       case Refuse(p, q) => Awaits(net, s, p, q)
  }

  /** What p has after one more reply; an answer is the status that q keeps. */
  function Received(net: SG.Network, s: State, e: NetStep): Replies
    requires net.Valid() && Shaped(net, s) && e.p in net.nodes && !e.Local? && Awaits(net, s, e.p, e.q)
  {
    var reply := match e
                 case Answer(_, q) => SG.Answered(s.nodes[q].nodeStatus)
                 case Lose(_, _) => SG.Answered(Unset)
                 case Refuse(_, _) => SG.Refused;
    s.replies[e.p][e.q := reply]
  }

  function Next(net: SG.Network, cs: Configs, s: State, e: NetStep): (t: State)
    requires Valid(net, cs) && Shaped(net, s) && CanStep(net, cs, s, e)
    ensures Shaped(net, t)
  {
    match e
    case Local(p, x) =>
      State(s.nodes[p := NM.Apply(cs[p], s.nodes[p], x)], s.replies[p := RepliesAfter(x, s.replies[p])])
    case _ => State(s.nodes, s.replies[e.p := Received(net, s, e)])
  }

  function Start(net: SG.Network, cs: Configs): State
    requires Valid(net, cs)
  {
    State(map p | p in net.nodes :: NM.Init(cs[p]), map p | p in net.nodes :: map[])
  }

  /** The state a run of steps leads to; None if some step could not happen. */
  ghost function After(net: SG.Network, cs: Configs, steps: seq<NetStep>): (r: Option<State>)
    requires Valid(net, cs)
    ensures r.Some? ==> Shaped(net, r.value)
    decreases |steps|
  {
    if steps == [] then Some(Start(net, cs)) else
      match After(net, cs, steps[..|steps| - 1])
      case None => None
      case Some(s) =>
        if CanStep(net, cs, s, steps[|steps| - 1]) then Some(Next(net, cs, s, steps[|steps| - 1])) else None
  }

  // ---- Every run of the network is a run of the protocol -------------------

  /** The steps that the code of p takes in a run. */
  function StepsOf(steps: seq<NetStep>, p: SG.Node): seq<NM.Step> {
    if steps == [] then [] else
      var last := steps[|steps| - 1];
      StepsOf(steps[..|steps| - 1], p) + if last.Local? && last.p == p then [last.e] else []
  }

  lemma NodeAfter(net: SG.Network, cs: Configs, s: State, e: NetStep, p: SG.Node)
    requires Valid(net, cs) && Shaped(net, s) && CanStep(net, cs, s, e) && p in net.nodes
    ensures Next(net, cs, s, e).nodes[p] ==
            if e.Local? && e.p == p then NM.Apply(cs[p], s.nodes[p], e.e) else s.nodes[p]
  {
  }

  /** What the network does to each hibernator is a run of its own machine. */
  lemma {:induction false} EachMachineRuns(net: SG.Network, cs: Configs, steps: seq<NetStep>, p: SG.Node)
    requires Valid(net, cs) && After(net, cs, steps).Some? && p in net.nodes
    ensures NM.After(cs[p], StepsOf(steps, p)) == Some(After(net, cs, steps).value.nodes[p])
    decreases |steps|
  {
    if steps != [] {
      var n := |steps| - 1;
      var s := After(net, cs, steps[..n]).value;
      EachMachineRuns(net, cs, steps[..n], p);
      NodeAfter(net, cs, s, steps[n], p);
      if steps[n].Local? && steps[n].p == p {
        NM.AfterSnoc(cs[p], StepsOf(steps[..n], p), steps[n].e);
      } else {
        assert StepsOf(steps, p) == StepsOf(steps[..n], p);
      }
    }
  }

  function Abstract(s: State): SG.State
    requires s.nodes.Keys == s.replies.Keys
  {
    map p | p in s.nodes :: PhaseOf(s.nodes[p], s.replies[p])
  }

  function Visible(e: NetStep): seq<SG.Step> {
    match e
    case Local(p, x) => if Silent(x) then [] else [ProtocolStep(p, x).value]
    case Answer(p, q) => [SG.Answer(p, q)]
    case Lose(p, q) => [SG.Lose(p, q)]
    case Refuse(p, q) => [SG.Refuse(p, q)]
  }

  function Projection(steps: seq<NetStep>): seq<SG.Step> {
    if steps == [] then [] else Projection(steps[..|steps| - 1]) + Visible(steps[|steps| - 1])
  }

  ghost predicate AllFit(s: State) {
    forall p :: p in s.nodes ==> NM.StatusFits(s.nodes[p])
  }

  /** From g the protocol goes on to t by the step seen, or stays if none is. */
  ghost predicate GoesOn(net: SG.Network, g: SG.State, seen: seq<SG.Step>, t: SG.State)
    requires net.Valid() && g.Keys == net.nodes
  {
    && |seen| <= 1
    && if seen == [] then t == g else SG.Enabled(net, g, seen[0]) && t == SG.Apply(net, g, seen[0])
  }

  /** One step of the network is one step of the protocol, or none. */
  lemma NetStepRefines(net: SG.Network, cs: Configs, s: State, e: NetStep)
    requires Valid(net, cs) && Shaped(net, s) && AllFit(s) && CanStep(net, cs, s, e)
    ensures GoesOn(net, Abstract(s), Visible(e), Abstract(Next(net, cs, s, e)))
  {
    match e
    case Local(p, x) => LocalStepRefines(net, cs, s, p, x);
    case _ => ReplyRefines(net, cs, s, e);
  }

  lemma AbstractUpdate(net: SG.Network, s: State, p: SG.Node, n: NM.Node, r: Replies)
    requires Shaped(net, s) && p in net.nodes
    ensures Abstract(State(s.nodes[p := n], s.replies[p := r])) == Abstract(s)[p := PhaseOf(n, r)]
  {
  }

  lemma LocalStepRefines(net: SG.Network, cs: Configs, s: State, p: SG.Node, x: NM.Step)
    requires Valid(net, cs) && Shaped(net, s) && AllFit(s) && CanStep(net, cs, s, Local(p, x))
    ensures var g, t := Abstract(s), Abstract(Next(net, cs, s, Local(p, x)));
            if Silent(x) then t == g
            else var d := ProtocolStep(p, x).value; SG.Enabled(net, g, d) && t == SG.Apply(net, g, d)
  {
    var n, g := NM.Apply(cs[p], s.nodes[p], x), Abstract(s);
    AbstractUpdate(net, s, p, n, RepliesAfter(x, s.replies[p]));
    if Silent(x) {
      SilentStepRefines(cs[p], s.nodes[p], x, s.replies[p]);
      assert g[p := g[p]] == g;
    } else {
      VisibleStepRefines(net, cs, s, p, x);
    }
  }

  lemma VisibleStepRefines(net: SG.Network, cs: Configs, s: State, p: SG.Node, x: NM.Step)
    requires Valid(net, cs) && Shaped(net, s) && AllFit(s) && CanStep(net, cs, s, Local(p, x)) && !Silent(x)
    ensures var g, d := Abstract(s), ProtocolStep(p, x).value;
            && SG.Enabled(net, g, d) && d.p == p
            && SG.NextPhase(net, g, d) == PhaseOf(NM.Apply(cs[p], s.nodes[p], x), RepliesAfter(x, s.replies[p]))
  {
    StepRefines(cs[p], s.nodes[p], x, net, Abstract(s), p, s.replies[p]);
  }

  lemma ReplyRefines(net: SG.Network, cs: Configs, s: State, e: NetStep)
    requires Valid(net, cs) && Shaped(net, s) && AllFit(s) && CanStep(net, cs, s, e) && !e.Local?
    ensures var g, d := Abstract(s), Visible(e)[0];
            SG.Enabled(net, g, d) && Abstract(Next(net, cs, s, e)) == SG.Apply(net, g, d)
  {
    var p := e.p;
    assert e.q in net.nodes;
    FlagIsNodeStatus(s.nodes[e.q], s.replies[e.q]);
    AbstractUpdate(net, s, p, s.nodes[p], Received(net, s, e));
    assert s.nodes[p := s.nodes[p]] == s.nodes;
    assert PhaseOf(s.nodes[p], s.replies[p]) == SG.Polling(s.replies[p]);
  }

  lemma RunsFit(net: SG.Network, cs: Configs, steps: seq<NetStep>)
    requires Valid(net, cs) && After(net, cs, steps).Some?
    ensures AllFit(After(net, cs, steps).value)
  {
    forall p | p in net.nodes ensures NM.StatusFits(After(net, cs, steps).value.nodes[p]) {
      EachMachineRuns(net, cs, steps, p);
      NM.StatusExplained(cs[p], StepsOf(steps, p));
    }
  }

  lemma ExtendProjection(net: SG.Network, cs: Configs, s: State, e: NetStep, run: seq<SG.Step>)
    requires Valid(net, cs) && Shaped(net, s) && AllFit(s) && CanStep(net, cs, s, e)
    requires SG.After(net, run) == Some(Abstract(s))
    ensures SG.After(net, run + Visible(e)) == Some(Abstract(Next(net, cs, s, e)))
  {
    NetStepRefines(net, cs, s, e);
    ExtendRun(net, run, Abstract(s), Visible(e), Abstract(Next(net, cs, s, e)));
  }

  /** A run goes on by one step, or none. */
  lemma ExtendRun(net: SG.Network, run: seq<SG.Step>, g: SG.State, seen: seq<SG.Step>, t: SG.State)
    requires net.Valid() && g.Keys == net.nodes && SG.After(net, run) == Some(g)
    requires GoesOn(net, g, seen, t)
    ensures SG.After(net, run + seen) == Some(t)
  {
    if seen == [] {
      assert run + seen == run;
    } else {
      SG.AfterSnoc(net, run, seen[0]);
      assert seen == [seen[0]];
    }
  }

  /** Main result: in every interleaved run of N hibernators' code, with polls
      answered from each other's status, what peers can see is a run of the
      protocol, and every flag is the status that the code keeps. */
  lemma {:induction false} NetworkRunsAreProtocolRuns(net: SG.Network, cs: Configs, steps: seq<NetStep>)
    requires Valid(net, cs) && After(net, cs, steps).Some?
    ensures SG.After(net, Projection(steps)) == Some(Abstract(After(net, cs, steps).value))
    ensures ShowsStatus(After(net, cs, steps).value)
    decreases |steps|
  {
    RunsFit(net, cs, steps);
    StatusIsShown(net, After(net, cs, steps).value);
    if steps == [] {
      assert Abstract(Start(net, cs)) == SG.Init(net);
    } else {
      var n := |steps| - 1;
      NetworkRunsAreProtocolRuns(net, cs, steps[..n]);
      RunsFit(net, cs, steps[..n]);
      ExtendProjection(net, cs, After(net, cs, steps[..n]).value, steps[n], Projection(steps[..n]));
    }
  }

  /** The flag that the protocol shows of each hibernator is its node status. */
  ghost predicate ShowsStatus(s: State)
    requires s.nodes.Keys == s.replies.Keys
  {
    forall p :: p in s.nodes ==> SG.Flag(Abstract(s)[p]) == s.nodes[p].nodeStatus
  }

  lemma StatusIsShown(net: SG.Network, s: State)
    requires Shaped(net, s) && AllFit(s)
    ensures ShowsStatus(s)
  {
    forall p | p in s.nodes ensures SG.Flag(Abstract(s)[p]) == s.nodes[p].nodeStatus {
      FlagIsNodeStatus(s.nodes[p], s.replies[p]);
    }
  }

  /** The projection grows with the run, so the flags agree at every moment. */
  lemma {:induction false} ProjectionGrows(steps: seq<NetStep>, k: nat)
    requires k <= |steps|
    ensures Projection(steps[..k]) <= Projection(steps)
    decreases |steps|
  {
    if k < |steps| {
      var front := steps[..|steps| - 1];
      ProjectionGrows(front, k);
      assert front[..k] == steps[..k];
    } else {
      assert steps[..k] == steps;
    }
  }

  // ---- Every run of the protocol is a run of some network ------------------

  /** The points where the code of a hibernator rests between protocol steps. */
  predicate Canonical(c: NM.Config, s: NM.Node) {
    && NM.StatusFits(s)
    && (s.pc.Free? || s.pc.StopPolling? || s.pc.StopHolding? || s.pc.StartPm? || s.pc == Stops(c))
  }

  /** The point from which the processes are stopped. */
  function Stops(c: NM.Config): NM.Point {
    NM.StopStopping(None, if c.withPrivMan then None else Some(true))
  }

  /** The step of the code that shows as a step of the protocol. */
  function CodeStep(d: SG.Step, clear: bool): NM.Step
    requires !d.Answer? && !d.Lose? && !d.Refuse?
  {
    match d
    case Raise(_) => NM.Raise
    case Decide(_) => if clear then NM.PeersAccept else NM.PeersReject
    case StopOk(_) => NM.BeginWait
    case StopFail(_) => NM.StopsFail
    case Release(_) => NM.EndWait
    case BeginStart(_) => NM.BeginStart
    case StartOk(_) => NM.FinishStart
    case StartFail(_) => NM.StartsFail
  }

  /** The canonical states in which the code can be brought to that step. */
  predicate LeadsTo(c: NM.Config, s: NM.Node, e: NM.Step) {
    match e
    case Raise => s.pc.Free? && s.nodeStatus == OK
    case PeersAccept => s.pc.StopPolling?
    case PeersReject => s.pc.StopPolling?
    case BeginWait => s.pc == Stops(c)
    case StopsFail => s.pc == Stops(c)
    case EndWait => s.pc.StopHolding?
    case BeginStart => s.pc.Free?
    case FinishStart => s.pc.StartPm?
    case StartsFail => s.pc.StartPm?
    case _ => false
  }

  /** The state after steps that peers do not see; None if one could not happen. */
  ghost function Silently(c: NM.Config, s: NM.Node, es: seq<NM.Step>): Option<NM.Node>
    decreases |es|
  {
    if es == [] then Some(s) else
      match Silently(c, s, es[..|es| - 1])
      case None => None
      case Some(t) =>
        var e := es[|es| - 1];
        if NM.Enabled(c, t, e) && Silent(e) then Some(NM.Apply(c, t, e)) else None
  }

  lemma Then(c: NM.Config, s: NM.Node, es: seq<NM.Step>, t: NM.Node, e: NM.Step)
    returns (more: seq<NM.Step>, u: NM.Node)
    requires Silently(c, s, es) == Some(t) && NM.Enabled(c, t, e) && Silent(e)
    ensures u == NM.Apply(c, t, e) && Silently(c, s, more) == Some(u)
  {
    more, u := es + [e], NM.Apply(c, t, e);
    assert more[..|es|] == es;
  }

  /** Finds the client up and gets past the consensus check. */
  lemma ToSleeping(c: NM.Config, s: NM.Node) returns (es: seq<NM.Step>, t: NM.Node)
    requires s.pc.Free? && s.nodeStatus == OK
    ensures Silently(c, s, es) == Some(t) && t.pc.StopSleeping? && t.nodeStatus == OK
  {
    es, t := Then(c, s, [], s, NM.Upcheck(true, true, true));
    es, t := Then(c, s, es, t, NM.EnterStop);
    es, t := Then(c, s, es, t, NM.StopSeesUp);
    es, t := Then(c, s, es, t, NM.StopCheck);
    es, t := Then(c, s, es, t, NM.ConsensusAccept(false));
  }

  /** Finds the client down and is going to start it. */
  lemma ToProbed(c: NM.Config, s: NM.Node) returns (es: seq<NM.Step>, t: NM.Node)
    requires s.pc.Free?
    ensures Silently(c, s, es) == Some(t) && t.pc.StartProbed? && t.nodeStatus == s.nodeStatus
  {
    es, t := Then(c, s, [], s, NM.Upcheck(true, false, false));
    es, t := Then(c, s, es, t, NM.EnterStart);
    es, t := Then(c, s, es, t, NM.StartNotUp);
    es, t := Then(c, s, es, t, NM.StartForced(false, false));
  }

  lemma ToStopped(c: NM.Config, s: NM.Node, ok: bool) returns (es: seq<NM.Step>, t: NM.Node)
    requires s.pc == Stops(c)
    ensures Silently(c, s, es) == Some(t) && t.nodeStatus == s.nodeStatus
    ensures t.pc == if ok then NM.StopMarked else NM.StopStopping(Some(false), Some(true))
  {
    es, t := Then(c, s, [], s, NM.BcStop(ok, false));
    if c.withPrivMan {
      es, t := Then(c, s, es, t, NM.PmStop(true, false));
    }
    if ok {
      es, t := Then(c, s, es, t, NM.StopsOk);
    }
  }

  lemma ToStarted(c: NM.Config, s: NM.Node, ok: bool) returns (es: seq<NM.Step>, t: NM.Node)
    requires s.pc.StartPm?
    ensures Silently(c, s, es) == Some(t) && t.nodeStatus == s.nodeStatus
    ensures t.pc == if ok then NM.StartMarked else NM.StartEnd(true, false)
  {
    es, t := Then(c, s, [], s, NM.PmStart(true));
    es, t := Then(c, s, es, t, NM.BcStart(ok));
    if ok {
      es, t := Then(c, s, es, t, NM.StartsOk);
    }
  }

  /** Brings the code to a step that peers see, and from there to rest. */
  lemma Prepare(c: NM.Config, s: NM.Node, e: NM.Step) returns (es: seq<NM.Step>, t: NM.Node)
    requires Canonical(c, s) && LeadsTo(c, s, e)
    ensures Silently(c, s, es) == Some(t) && NM.Enabled(c, t, e) && Canonical(c, NM.Apply(c, t, e))
  {
    es, t := [], s;
    if e.Raise? {
      es, t := ToSleeping(c, s);
    } else if e.BeginStart? {
      es, t := ToProbed(c, s);
    } else if e.BeginWait? || e.StopsFail? {
      es, t := ToStopped(c, s, e.BeginWait?);
    } else if e.FinishStart? || e.StartsFail? {
      es, t := ToStarted(c, s, e.FinishStart?);
    }
  }

  /** Another step of the network. */
  lemma Do(net: SG.Network, cs: Configs, steps: seq<NetStep>, e: NetStep) returns (more: seq<NetStep>)
    requires Valid(net, cs) && After(net, cs, steps).Some? && CanStep(net, cs, After(net, cs, steps).value, e)
    ensures After(net, cs, more) == Some(Next(net, cs, After(net, cs, steps).value, e))
    ensures Projection(more) == Projection(steps) + Visible(e)
  {
    more := steps + [e];
    assert more[..|steps|] == steps;
  }

  /** Steps of one hibernator that peers do not see, as steps of the network. */
  lemma {:induction false} Play(net: SG.Network, cs: Configs, steps: seq<NetStep>, p: SG.Node, es: seq<NM.Step>)
    returns (more: seq<NetStep>)
    requires Valid(net, cs) && After(net, cs, steps).Some? && p in net.nodes
    requires Silently(cs[p], After(net, cs, steps).value.nodes[p], es).Some?
    ensures var s := After(net, cs, steps).value;
            After(net, cs, more) == Some(s.(nodes := s.nodes[p := Silently(cs[p], s.nodes[p], es).value]))
    ensures Projection(more) == Projection(steps)
    decreases |es|
  {
    var s := After(net, cs, steps).value;
    if es == [] {
      more := steps;
      assert s.nodes[p := s.nodes[p]] == s.nodes;
    } else {
      var n := |es| - 1;
      more := Play(net, cs, steps, p, es[..n]);
      PlayOne(net, cs, s, p, Silently(cs[p], s.nodes[p], es[..n]).value, es[n]);
      more := Do(net, cs, more, Local(p, es[n]));
    }
  }

  lemma PlayOne(net: SG.Network, cs: Configs, s: State, p: SG.Node, n: NM.Node, e: NM.Step)
    requires Valid(net, cs) && Shaped(net, s) && p in net.nodes && NM.Enabled(cs[p], n, e) && Silent(e)
    ensures var t := s.(nodes := s.nodes[p := n]);
            && CanStep(net, cs, t, Local(p, e))
            && Next(net, cs, t, Local(p, e)) == s.(nodes := s.nodes[p := NM.Apply(cs[p], n, e)])
  {
    assert s.replies[p := s.replies[p]] == s.replies;
    assert s.nodes[p := n][p := NM.Apply(cs[p], n, e)] == s.nodes[p := NM.Apply(cs[p], n, e)];
  }

  ghost predicate AllRest(net: SG.Network, cs: Configs, s: State)
    requires Valid(net, cs) && Shaped(net, s)
  {
    forall p :: p in net.nodes ==> Canonical(cs[p], s.nodes[p])
  }

  /** The steps that bring the hibernator of d to the step that shows as d. */
  lemma PrepareFor(net: SG.Network, cs: Configs, s: State, d: SG.Step)
    returns (es: seq<NM.Step>, e: NM.Step, t: NM.Node)
    requires Valid(net, cs) && Shaped(net, s) && AllRest(net, cs, s)
    requires !d.Answer? && !d.Lose? && !d.Refuse? && SG.Enabled(net, Abstract(s), d)
    ensures Silently(cs[d.p], s.nodes[d.p], es) == Some(t)
    ensures NM.Enabled(cs[d.p], t, e) && Canonical(cs[d.p], NM.Apply(cs[d.p], t, e))
    ensures CanStep(net, cs, s.(nodes := s.nodes[d.p := t]), Local(d.p, e))
    ensures Visible(Local(d.p, e)) == [d]
  {
    var p := d.p;
    e := CodeStep(d, SG.AllClear(s.replies[p]));
    PhaseLeadsTo(net, Abstract(s), cs[p], s.nodes[p], s.replies[p], d);
    es, t := Prepare(cs[p], s.nodes[p], e);
  }

  /** A step of one hibernator in the protocol, as its code takes it. */
  lemma RealizeLocal(net: SG.Network, cs: Configs, steps: seq<NetStep>, d: SG.Step) returns (more: seq<NetStep>)
    requires Valid(net, cs) && After(net, cs, steps).Some? && AllRest(net, cs, After(net, cs, steps).value)
    requires !d.Answer? && !d.Lose? && !d.Refuse? && SG.Enabled(net, Abstract(After(net, cs, steps).value), d)
    ensures After(net, cs, more).Some? && AllRest(net, cs, After(net, cs, more).value)
    ensures Projection(more) == Projection(steps) + [d]
  {
    var s := After(net, cs, steps).value;
    var es, e, t := PrepareFor(net, cs, s, d);
    var played := Play(net, cs, steps, d.p, es);
    RestAgain(net, cs, s, s.(nodes := s.nodes[d.p := t]), d.p, e);
    more := Do(net, cs, played, Local(d.p, e));
  }

  lemma RestAgain(net: SG.Network, cs: Configs, s: State, mid: State, p: SG.Node, e: NM.Step)
    requires Valid(net, cs) && Shaped(net, s) && Shaped(net, mid) && p in net.nodes && AllRest(net, cs, s)
    requires mid.nodes == s.nodes[p := mid.nodes[p]]
    requires CanStep(net, cs, mid, Local(p, e)) && Canonical(cs[p], NM.Apply(cs[p], mid.nodes[p], e))
    ensures AllRest(net, cs, Next(net, cs, mid, Local(p, e)))
  {
    forall q | q in net.nodes ensures Canonical(cs[q], Next(net, cs, mid, Local(p, e)).nodes[q]) {
      NodeAfter(net, cs, mid, Local(p, e), q);
      assert Canonical(cs[q], s.nodes[q]);
    }
  }

  lemma PhaseLeadsTo(net: SG.Network, g: SG.State, c: NM.Config, s: NM.Node, replies: Replies, d: SG.Step)
    requires net.Valid() && g.Keys == net.nodes && !d.Answer? && !d.Lose? && !d.Refuse? && SG.Enabled(net, g, d)
    requires Canonical(c, s) && g[d.p] == PhaseOf(s, replies)
    ensures LeadsTo(c, s, CodeStep(d, SG.AllClear(replies)))
    ensures d.Decide? ==> replies.Keys == net.peers[d.p]
  {
    match d
    case Raise(_) =>
    case Decide(_) =>
    case StopOk(_) =>
    case StopFail(_) =>
    case Release(_) =>
    case BeginStart(_) =>
    case StartOk(_) =>
    case StartFail(_) =>
  }

  lemma RealizeReply(net: SG.Network, cs: Configs, steps: seq<NetStep>, d: SG.Step) returns (more: seq<NetStep>)
    requires Valid(net, cs) && After(net, cs, steps).Some? && AllRest(net, cs, After(net, cs, steps).value)
    requires (d.Answer? || d.Lose? || d.Refuse?) && SG.Enabled(net, Abstract(After(net, cs, steps).value), d)
    ensures After(net, cs, more).Some? && AllRest(net, cs, After(net, cs, more).value)
    ensures Projection(more) == Projection(steps) + [d]
  {
    var s := After(net, cs, steps).value;
    assert Abstract(s)[d.p] == PhaseOf(s.nodes[d.p], s.replies[d.p]);
    match d
    case Answer(p, q) => more := Do(net, cs, steps, Answer(p, q));
    case Lose(p, q) => more := Do(net, cs, steps, Lose(p, q));
    case Refuse(p, q) => more := Do(net, cs, steps, Refuse(p, q));
  }

  lemma Realize(net: SG.Network, cs: Configs, steps: seq<NetStep>, d: SG.Step) returns (more: seq<NetStep>)
    requires Valid(net, cs) && After(net, cs, steps).Some? && AllRest(net, cs, After(net, cs, steps).value)
    requires SG.Enabled(net, Abstract(After(net, cs, steps).value), d)
    ensures After(net, cs, more).Some? && AllRest(net, cs, After(net, cs, more).value)
    ensures Projection(more) == Projection(steps) + [d]
  {
    if d.Answer? || d.Lose? || d.Refuse? {
      more := RealizeReply(net, cs, steps, d);
    } else {
      more := RealizeLocal(net, cs, steps, d);
    }
  }

  lemma LastStep(net: SG.Network, front: seq<SG.Step>, d: SG.Step)
    requires net.Valid() && SG.After(net, front + [d]).Some?
    ensures SG.After(net, front).Some? && SG.Enabled(net, SG.After(net, front).value, d)
  {
    assert (front + [d])[..|front|] == front;
  }

  lemma RealizeNext(net: SG.Network, cs: Configs, before: seq<NetStep>, front: seq<SG.Step>, d: SG.Step)
    returns (steps: seq<NetStep>)
    requires Valid(net, cs) && After(net, cs, before).Some? && AllRest(net, cs, After(net, cs, before).value)
    requires Projection(before) == front && SG.After(net, front + [d]).Some?
    ensures After(net, cs, steps).Some? && AllRest(net, cs, After(net, cs, steps).value)
    ensures Projection(steps) == front + [d]
  {
    LastStep(net, front, d);
    NetworkRunsAreProtocolRuns(net, cs, before);
    steps := Realize(net, cs, before, d);
  }

  lemma StartRests(net: SG.Network, cs: Configs)
    requires Valid(net, cs)
    ensures After(net, cs, []).Some? && AllRest(net, cs, After(net, cs, []).value)
  {
  }

  /** Main result: conversely every run of the protocol is what peers see of some
      run of the hibernators' code, whatever their configurations. */
  lemma {:induction false} ProtocolRunsAreNetworkRuns(net: SG.Network, cs: Configs, run: seq<SG.Step>)
    returns (steps: seq<NetStep>)
    requires Valid(net, cs) && SG.After(net, run).Some?
    ensures After(net, cs, steps).Some? && AllRest(net, cs, After(net, cs, steps).value)
    ensures Projection(steps) == run
    decreases |run|
  {
    if run == [] {
      steps := [];
      StartRests(net, cs);
    } else {
      var front, d := run[..|run| - 1], run[|run| - 1];
      assert front + [d] == run;
      LastStep(net, front, d);
      var before := ProtocolRunsAreNetworkRuns(net, cs, front);
      steps := RealizeNext(net, cs, before, front, d);
    }
  }

  // ---- Mutual exclusion of the code ----------------------------------------

  /** The code is stopping its processes, holding, or stuck after a failed stop. */
  predicate GoesDown(s: NM.Node) {
    || s.pc.StopStopping? || s.pc.StopMarked? || s.pc.StopHolding?
    || (NM.Untouched(s.pc) && s.nodeStatus == ShutdownInprogress)
  }

  ghost predicate OneGoesDown(s: State) {
    forall p, q :: p in s.nodes && q in s.nodes && p != q ==> !(GoesDown(s.nodes[p]) && GoesDown(s.nodes[q]))
  }

  /** Read off the node status and the program point: not both are marked as shutting
      down or holding, except for hibernators that still poll or are being cleared. */
  lemma OneGoesDownMeans(s: State)
    requires AllFit(s)
    ensures OneGoesDown(s) <==>
            forall p, q :: p in s.nodes && q in s.nodes && p != q ==>
              !((s.nodes[p].nodeStatus in {ShutdownInprogress, ConsensusWait} && !s.nodes[p].pc.StopPolling?) &&
                (s.nodes[q].nodeStatus in {ShutdownInprogress, ConsensusWait} && !s.nodes[q].pc.StopPolling?))
  {
    forall p | p in s.nodes
      ensures GoesDown(s.nodes[p]) <==>
              s.nodes[p].nodeStatus in {ShutdownInprogress, ConsensusWait} && !s.nodes[p].pc.StopPolling?
    {
      assert NM.StatusFits(s.nodes[p]);
    }
  }

  lemma GoesDownIsPast(s: State)
    requires s.nodes.Keys == s.replies.Keys
    ensures OneGoesDown(s) <==> SG.Exclusive(Abstract(s))
  {
    assert forall p :: p in s.nodes ==> (GoesDown(s.nodes[p]) <==> SG.Past(Abstract(s)[p]));
  }

  lemma ExclusionProjects(net: SG.Network, cs: Configs, steps: seq<NetStep>)
    requires Valid(net, cs) && After(net, cs, steps).Some?
    ensures SG.After(net, Projection(steps)).Some?
    ensures OneGoesDown(After(net, cs, steps).value) <==> SG.Exclusive(SG.After(net, Projection(steps)).value)
  {
    NetworkRunsAreProtocolRuns(net, cs, steps);
    GoesDownIsPast(After(net, cs, steps).value);
  }

  /** With full cover, no run of the code takes two hibernators down at once. */
  lemma CodeExclusion(net: SG.Network, cs: Configs, steps: seq<NetStep>)
    requires Valid(net, cs) && net.FullyCovered() && After(net, cs, steps).Some?
    ensures OneGoesDown(After(net, cs, steps).value)
  {
    ExclusionProjects(net, cs, steps);
    SG.ExclusionIffCovered(net);
  }

  /** Without it, some run of the code does. */
  lemma CodeCollision(net: SG.Network, cs: Configs) returns (steps: seq<NetStep>)
    requires Valid(net, cs) && !net.FullyCovered()
    ensures After(net, cs, steps).Some? && !OneGoesDown(After(net, cs, steps).value)
  {
    SG.ExclusionIffCovered(net);
    var run: seq<SG.Step> :| SG.After(net, run).Some? && !SG.Exclusive(SG.After(net, run).value);
    steps := ProtocolRunsAreNetworkRuns(net, cs, run);
    ExclusionProjects(net, cs, steps);
  }

  /** Main result: in all interleaved runs of the code of N hibernators at most one
      at a time stops its processes, holds or is stuck -- if and only if all list
      each other and no call between them is lost. */
  lemma CodeExclusionIffCovered(net: SG.Network, cs: Configs)
    requires Valid(net, cs)
    ensures (forall steps: seq<NetStep> :: After(net, cs, steps).Some? ==> OneGoesDown(After(net, cs, steps).value))
            <==> net.FullyCovered()
  {
    if net.FullyCovered() {
      forall steps: seq<NetStep> | After(net, cs, steps).Some? ensures OneGoesDown(After(net, cs, steps).value) {
        CodeExclusion(net, cs, steps);
      }
    } else {
      var steps := CodeCollision(net, cs);
    }
  }
}
