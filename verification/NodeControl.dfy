/** The controller of one node: the methods that stop and start its processes.
    A ghost field records the steps of NodeMachine that a call goes through. */
module NodeControl {
  import opened Basics
  import opened Core
  import opened Process
  import opened NodeMachine

  /** What the environment does to a command on a process; clientOk is about the
      docker client and means nothing to a shell process. */
  datatype Command = Command(clientOk: bool, commandOk: bool)

  /** A process of either kind, behind the interface that the controller uses. */
  datatype ProcessRef = Shell(sp: ShellProcessControl) | Docker(dc: DockerControl) {
    function Obj(): object {
      match this case Shell(sp) => sp case Docker(dc) => dc
    }

    predicate Valid()
      reads Obj()
    {
      match this case Shell(sp) => sp.Coherent() case Docker(_) => true
    }

    predicate Status()
      reads Obj()
    {
      match this case Shell(sp) => sp.status case Docker(dc) => dc.status
    }

    function Stream(): Upchecks {
      match this case Shell(sp) => sp.upchecks case Docker(dc) => dc.upchecks
    }

    /** The number of upchecks made so far. */
    function Checks(): nat
      reads Obj()
    {
      match this case Shell(sp) => sp.checks case Docker(dc) => dc.checks
    }

    /** The command goes through. */
    predicate Runs(c: Command) {
      c.commandOk && (Docker? ==> c.clientOk)
    }

    /** What the next upcheck will say. */
    predicate UpNow()
      reads Obj()
    {
      Stream()(Checks()) == Ok(true)
    }

    /** A stop issued now will succeed. */
    ghost predicate StopSucceeds(c: Command)
      reads Obj()
    {
      !Status() || (Runs(c) && Within(Stream(), Checks(), false))
    }

    /** A start issued now will succeed. */
    ghost predicate StartSucceeds(c: Command)
      reads Obj()
    {
      Status() || (Runs(c) && Within(Stream(), Checks(), true))
    }

    /** A start issued after one more upcheck will succeed. */
    ghost predicate StartsAfterCheck(c: Command)
      reads Obj()
    {
      UpNow() || (Runs(c) && Within(Stream(), Checks() + 1, true))
    }

    method UpdateStatus() returns (up: bool)
      modifies Obj()
      ensures Valid() && up == Status() == old(UpNow())
      ensures up <==> Stream()(old(Checks())) == Ok(true)
      ensures Checks() == old(Checks()) + 1
    {
      match this
      case Shell(sp) => up := sp.UpdateStatus();
      case Docker(dc) => up := dc.UpdateStatus();
    }

    method Stop(command: Command) returns (err: bool)
      requires Valid()
      modifies Obj()
      ensures Valid() && (!err <==> old(StopSucceeds(command))) && (!err ==> !Status())
      ensures !err <==> !old(Status()) || (command.commandOk && (Docker? ==> command.clientOk) &&
                        exists j :: old(Checks()) <= j < old(Checks()) + 30 && Stream()(j) != Ok(true))
    {
      match this
      case Shell(sp) => err := sp.Stop(command.commandOk);
      case Docker(dc) => err := dc.Stop(command.clientOk, command.commandOk);
    }

    method Start(command: Command) returns (err: bool)
      requires Valid()
      modifies Obj()
      ensures Valid() && (!err <==> old(StartSucceeds(command))) && Status() == !err
      ensures !err <==> old(Status()) || (command.commandOk && (Docker? ==> command.clientOk) &&
                        exists j :: old(Checks()) <= j < old(Checks()) + 30 && Stream()(j) == Ok(true))
    {
      match this
      case Shell(sp) => err := sp.Start(command.commandOk);
      case Docker(dc) => err := dc.Start(command.clientOk, command.commandOk);
    }
  }

  /** What a call to StopClient meets: whether the configured consensus matches
      the client's, the engine's verdict, the peers' verdict, and the commands. */
  datatype StopWorld = StopWorld(configMatches: bool, member: bool, accepted: bool, peersClear: bool, bc: Command,
                                 pm: Command)

  class NodeControl {
    const cfg: Config
    const goQuorum: bool
    const resyncTimerSet: bool
    const bcclnt: ProcessRef
    const pmclnt: Option<ProcessRef>
    var nodeStatus: NodeStatus
    var clientStatus: ClientStatus
    var consValid: bool
    var inactivityResets: nat   // resets handed to the inactivity tracker
    var syncResets: nat         // resets handed to the resync tracker
    ghost var steps: seq<Step>

    ghost function Repr(): set<object> {
      {this, bcclnt.Obj()} + PmObjs()
    }

    ghost function PmObjs(): set<object> {
      if pmclnt.Some? then {pmclnt.value.Obj()} else {}
    }

    ghost function PmUp(): bool
      reads PmObjs()
    {
      pmclnt.None? || pmclnt.value.Status()
    }

    /** What the next upchecks will say of all processes. */
    ghost predicate UpNow()
      reads bcclnt.Obj(), PmObjs()
    {
      bcclnt.UpNow() && (pmclnt.Some? ==> pmclnt.value.UpNow())
    }

    /** The stop or start of the privacy manager, if there is one, will succeed. */
    ghost predicate PmStops(c: Command)
      reads PmObjs()
    {
      pmclnt.Some? ==> pmclnt.value.StopSucceeds(c)
    }

    ghost predicate PmStarts(c: Command)
      reads PmObjs()
    {
      pmclnt.Some? ==> pmclnt.value.StartSucceeds(c)
    }

    ghost predicate PmStartsAfterCheck(c: Command)
      reads PmObjs()
    {
      pmclnt.Some? ==> pmclnt.value.StartsAfterCheck(c)
    }

    /** The state of the machine that the fields and cached statuses make up. */
    ghost function Abs(pc: Point): Node
      reads Repr()
    {
      Node(nodeStatus, clientStatus, bcclnt.Status(), PmUp(), pc)
    }

    /** The processes are distinct objects in order. */
    ghost predicate Separate()
      reads bcclnt.Obj(), PmObjs()
    {
      && bcclnt.Obj() != this && bcclnt.Valid()
      && (pmclnt.Some? ==> pmclnt.value.Obj() != this && pmclnt.value.Obj() != bcclnt.Obj() && pmclnt.value.Valid())
    }

    /** The recorded steps are a run of the machine that ends at pc. */
    ghost predicate RunsTo(pc: Point)
      reads Repr()
    {
      && cfg.withPrivMan == pmclnt.Some?
      && Separate()
      && After(cfg, steps) == Some(Abs(pc))
    }

    ghost predicate Valid()
      reads Repr()
    {
      RunsTo(Free)
    }

    constructor (bcclnt: ProcessRef, pmclnt: Option<ProcessRef>, strictMode: bool, goQuorum: bool,
                 resyncTimerSet: bool)
      requires bcclnt.Valid() && (pmclnt.Some? ==> pmclnt.value.Obj() != bcclnt.Obj() && pmclnt.value.Valid())
      ensures Valid() && this.bcclnt == bcclnt && this.pmclnt == pmclnt && this.goQuorum == goQuorum
      ensures this.resyncTimerSet == resyncTimerSet && inactivityResets == 0 && syncResets == 0
      ensures cfg.strictMode == strictMode && nodeStatus == OK && clientStatus == Unknown && !consValid
    {
      this.bcclnt, this.pmclnt, this.goQuorum, this.resyncTimerSet := bcclnt, pmclnt, goQuorum, resyncTimerSet;
      inactivityResets, syncResets := 0, 0;
      this.cfg := Config(pmclnt.Some?, strictMode, bcclnt.Status(), pmclnt.Some? && pmclnt.value.Status());
      nodeStatus, clientStatus, consValid, steps := OK, Unknown, false, [];
    }

    /** Records a step of the machine from state s to state s'. */
    ghost method Note(s: Node, e: Step, s': Node)
      requires After(cfg, steps) == Some(s) && Enabled(cfg, s, e) && Apply(cfg, s, e) == s'
      modifies this`steps
      ensures steps == old(steps) + [e] && After(cfg, steps) == Some(s')
    {
      AfterSnoc(cfg, steps, e);
      steps := steps + [e];
    }

    /** A step between two program points that sets the two statuses. */
    method Move(ghost pc: Point, e: Step, ghost pc': Point, ns: NodeStatus, cs: ClientStatus)
      requires RunsTo(pc) && Enabled(cfg, Abs(pc), e)
      requires Apply(cfg, Abs(pc), e) == Abs(pc).(pc := pc', nodeStatus := ns, clientStatus := cs)
      modifies this`nodeStatus, this`clientStatus, this`steps
      ensures RunsTo(pc') && nodeStatus == ns && clientStatus == cs && steps == old(steps) + [e]
    {
      ghost var s := Abs(pc);
      nodeStatus, clientStatus := ns, cs;
      Note(s, e, Abs(pc'));
    }

    /** Upchecks of both processes. */
    method FetchCurrentClientStatuses(ghost bcStart: Command, ghost pmStart: Command) returns (bc: bool, pm: bool)
      requires Separate()
      modifies bcclnt.Obj(), PmObjs()
      ensures Separate()
      ensures bc == bcclnt.Status() == old(bcclnt.UpNow())
      ensures pm == PmUp() == (pmclnt.Some? ==> old(pmclnt.value.UpNow()))
      ensures bcclnt.StartSucceeds(bcStart) == old(bcclnt.StartsAfterCheck(bcStart))
      ensures PmStarts(pmStart) == old(PmStartsAfterCheck(pmStart))
    {
      bc := bcclnt.UpdateStatus();
      pm := true;
      if pmclnt.Some? {
        pm := pmclnt.value.UpdateStatus();
      }
    }

    /** What the upchecks say becomes the client status. */
    method Refresh(ghost bcStart: Command, ghost pmStart: Command) returns (up: bool)
      requires Separate()
      modifies this`clientStatus, bcclnt.Obj(), PmObjs()
      ensures Separate()
      ensures up == (bcclnt.Status() && PmUp()) == old(UpNow()) && clientStatus == if up then Up else Down
      ensures bcclnt.StartSucceeds(bcStart) == old(bcclnt.StartsAfterCheck(bcStart))
      ensures PmStarts(pmStart) == old(PmStartsAfterCheck(pmStart))
    {
      var bc, pm := FetchCurrentClientStatuses(bcStart, pmStart);
      clientStatus := if bc && pm then Up else Down;
      return bc && pm;
    }

    /** Asks the processes unless the client is taken to be down and the caller
        does not insist; what they say becomes the client status. */
    method CheckClientUpStatus(connectToClient: bool) returns (up: bool)
      requires Valid()
      modifies this`clientStatus, this`steps, bcclnt.Obj(), PmObjs()
      ensures Valid()
      ensures !old(clientStatus.Up?) && !connectToClient ==>
                !up && clientStatus == old(clientStatus) && steps == old(steps)
      ensures old(clientStatus.Up?) || connectToClient ==>
                && up == (bcclnt.Status() && PmUp()) == old(UpNow())
                && (up <==> bcclnt.Stream()(old(bcclnt.Checks())) == Ok(true) &&
                            (pmclnt.Some? ==> pmclnt.value.Stream()(old(pmclnt.value.Checks())) == Ok(true)))
                && clientStatus == (if up then Up else Down)
                && steps == old(steps) + [Upcheck(connectToClient, bcclnt.Status(), PmUp())]
    {
      if clientStatus != Up && !connectToClient {
        return false;
      }
      ghost var s := Abs(Free);
      up := Refresh(Command(true, true), Command(true, true));
      Note(s, Upcheck(connectToClient, bcclnt.Status(), PmUp()), Abs(Free));
    }

    method IsNodeBusy() returns (busy: bool)
      ensures busy <==> nodeStatus == ShutdownInprogress || nodeStatus == StartupInprogress
    {
      match nodeStatus
      case ShutdownInprogress => return true;
      case StartupInprogress => return true;
      case _ => return false;
    }

    /** The configured consensus is compared once, and only for GoQuorum. */
    method CheckAndValidateConsensus(w: StopWorld) returns (member: bool, ok: bool)
      modifies this`consValid
      ensures ok <==> (!old(consValid) && goQuorum ==> w.configMatches) && w.accepted
      ensures ok ==> member == w.member
      ensures consValid <==> old(consValid) || (goQuorum && w.configMatches)
    {
      if !consValid && goQuorum {
        if !w.configMatches {
          return false, false;
        }
        consValid := true;
      }
      return w.member, w.accepted;
    }

    /** Both stops are always tried. */
    method StopBoth(bc: Command, pm: Command) returns (bcOk: bool, pmOk: bool)
      requires Separate()
      modifies bcclnt.Obj(), PmObjs()
      ensures Separate()
      ensures (bcOk <==> old(bcclnt.StopSucceeds(bc))) && (pmOk <==> old(PmStops(pm)))
      ensures pmOk <==> pmclnt.None? || old(pmclnt.value.StopSucceeds(pm))
      ensures (bcOk ==> !bcclnt.Status()) && (pmOk && pmclnt.Some? ==> !pmclnt.value.Status())
    {
      var err := bcclnt.Stop(bc);
      bcOk, pmOk := !err, true;
      if pmclnt.Some? {
        err := pmclnt.value.Stop(pm);
        pmOk := !err;
      }
    }

    /** The recorded run gains one step for each stop. */
    method StopProcesses(bc: Command, pm: Command) returns (bcOk: bool, pmOk: bool)
      requires RunsTo(Stopping())
      modifies this`steps, bcclnt.Obj(), PmObjs()
      ensures RunsTo(StopStopping(Some(bcOk), Some(pmOk)))
      ensures (bcOk <==> old(bcclnt.StopSucceeds(bc))) && (pmOk <==> old(PmStops(pm)))
      ensures (bcOk ==> !bcclnt.Status()) && (pmOk && pmclnt.Some? ==> !pmclnt.value.Status())
      ensures steps == old(steps) + [BcStop(bcOk, bcclnt.Status())] +
                       if pmclnt.Some? then [PmStop(pmOk, pmclnt.value.Status())] else []
    {
      ghost var s := Abs(Stopping());
      bcOk, pmOk := StopBoth(bc, pm);
      NoteStops(s, bcOk, pmOk);
    }

    ghost method NoteStops(s: Node, bcOk: bool, pmOk: bool)
      requires cfg.withPrivMan == pmclnt.Some? && Separate() && After(cfg, steps) == Some(s)
      requires s.pc == Stopping() && s.nodeStatus == nodeStatus && s.clientStatus == clientStatus
      requires pmclnt.None? ==> s.pmUp
      requires (bcOk ==> !bcclnt.Status()) && if pmclnt.Some? then pmOk ==> !pmclnt.value.Status() else pmOk
      modifies this`steps
      ensures RunsTo(StopStopping(Some(bcOk), Some(pmOk)))
      ensures steps == old(steps) + [BcStop(bcOk, bcclnt.Status())] +
                       if pmclnt.Some? then [PmStop(pmOk, pmclnt.value.Status())] else []
    {
      var mid := s.(bcUp := bcclnt.Status(), pc := StopStopping(Some(bcOk), s.pc.pm));
      Note(s, BcStop(bcOk, bcclnt.Status()), mid);
      if pmclnt.Some? {
        Note(mid, PmStop(pmOk, pmclnt.value.Status()), Abs(StopStopping(Some(bcOk), Some(pmOk))));
      }
    }

    /** All the ways a call to StopClient can go. */
    ghost function StopCase(w: StopWorld): StopOutcome
      reads this
    {
      if !clientStatus.Up? then AlreadyDown
      else if Busy(nodeStatus) then NodeBusy
      else if (!consValid && goQuorum && !w.configMatches) || !w.accepted then ConsensusForbids
      else if w.member && cfg.strictMode then StrictModeForbids
      else if !w.peersClear then PeersForbid
      else Attempted
    }

    /** StopClient up to its check for a busy node: a client that is down needs no stop. */
    method EnterStopClient() returns (isUp: bool)
      requires Valid()
      modifies this`nodeStatus, this`clientStatus, this`steps
      ensures isUp <==> old(clientStatus.Up?)
      ensures RunsTo(if isUp then StopSawUp else Free)
      ensures old(steps) <= steps
      ensures nodeStatus == old(nodeStatus) && clientStatus == old(clientStatus)
      ensures isUp ==> steps == old(steps) + [EnterStop, StopSeesUp]
    {
      Move(Free, EnterStop, StopEntry, nodeStatus, clientStatus);
      isUp := clientStatus == Up;
      if isUp {
        Move(StopEntry, StopSeesUp, StopSawUp, nodeStatus, clientStatus);
      } else {
        Move(StopEntry, StopNotUp, Free, nodeStatus, clientStatus);
      }
    }

    /** StopClient up to the consensus check. */
    method BeginStop() returns (outcome: StopOutcome)
      requires Valid()
      modifies this`nodeStatus, this`clientStatus, this`steps
      ensures outcome == if !old(clientStatus.Up?) then AlreadyDown
                         else if old(nodeStatus) == ShutdownInprogress || old(nodeStatus) == StartupInprogress
                         then NodeBusy else Attempted
      ensures RunsTo(if outcome == Attempted then StopChecking else Free)
      ensures old(steps) <= steps
      ensures nodeStatus == old(nodeStatus) && clientStatus == old(clientStatus)
      ensures outcome == Attempted ==> steps == old(steps) + [EnterStop, StopSeesUp, StopCheck]
    {
      var isUp := EnterStopClient();
      if !isUp {
        return AlreadyDown;
      }
      var busy := IsNodeBusy();
      if busy {
        Move(StopSawUp, StopBusy, Free, nodeStatus, clientStatus);
        return NodeBusy;
      }
      Move(StopSawUp, StopCheck, StopChecking, nodeStatus, clientStatus);
      return Attempted;
    }

    /** StopClient up to the point where the processes are stopped. */
    method DecideStop(w: StopWorld) returns (outcome: StopOutcome)
      requires Valid()
      modifies this`nodeStatus, this`clientStatus, this`consValid, this`steps
      ensures outcome == old(StopCase(w)) && clientStatus == old(clientStatus)
      ensures outcome == PeersForbid ==> !w.peersClear
      ensures outcome == Attempted ==> w.peersClear && w.accepted && !(w.member && cfg.strictMode)
      ensures consValid <==> old(consValid) ||
                             (old(clientStatus.Up?) && old(nodeStatus) != ShutdownInprogress &&
                              old(nodeStatus) != StartupInprogress && goQuorum && w.configMatches)
      ensures RunsTo(if outcome == Attempted then Stopping() else Free)
      ensures old(steps) <= steps
      ensures nodeStatus == match outcome
                            case Attempted => ShutdownInprogress
                            case ConsensusForbids => OK
                            case PeersForbid => OK
                            case _ => old(nodeStatus)
      ensures outcome == Attempted ==>
                steps == old(steps) + [EnterStop, StopSeesUp, StopCheck] +
                         [ConsensusAccept(w.member), NodeMachine.Raise, PeersAccept]
    {
      outcome := BeginStop();
      if outcome != Attempted {
        return;
      }
      var member;
      outcome, member := AskConsensus(w);
      if outcome == Attempted {
        var clear := ValidatePeers(member, w.peersClear);
        outcome := if clear then Attempted else PeersForbid;
      }
    }

    /** The consensus check and the strict mode; a member that is refused for the
        latter keeps its status. */
    method AskConsensus(w: StopWorld) returns (outcome: StopOutcome, member: bool)
      requires RunsTo(StopChecking)
      modifies this`nodeStatus, this`clientStatus, this`consValid, this`steps
      ensures outcome == if (!old(consValid) && goQuorum && !w.configMatches) || !w.accepted then ConsensusForbids
                         else if w.member && cfg.strictMode then StrictModeForbids else Attempted
      ensures RunsTo(if outcome == Attempted then StopChecking else Free)
      ensures clientStatus == old(clientStatus)
      ensures nodeStatus == if outcome == ConsensusForbids then OK else old(nodeStatus)
      ensures consValid <==> old(consValid) || (goQuorum && w.configMatches)
      ensures old(steps) <= steps && (outcome == Attempted ==> member == w.member && steps == old(steps))
    {
      var ok;
      member, ok := CheckAndValidateConsensus(w);
      outcome := Attempted;
      if !ok {
        Move(StopChecking, ConsensusReject, Free, OK, clientStatus);
        outcome := ConsensusForbids;
      } else if member && cfg.strictMode {
        Move(StopChecking, StrictRefuse, Free, nodeStatus, clientStatus);
        outcome := StrictModeForbids;
      }
    }

    /** Where the stops begin; without a privacy manager its stop counts as done. */
    ghost function Stopping(): (pc: Point)
      ensures pc.StopStopping?
    {
      StopStopping(None, if cfg.withPrivMan then None else Some(true))
    }

    /** The flag goes up before the peers are asked, and down if one objects. */
    method ValidatePeers(member: bool, peersClear: bool) returns (clear: bool)
      requires RunsTo(StopChecking) && !(member && cfg.strictMode)
      modifies this`nodeStatus, this`clientStatus, this`steps
      ensures clear == peersClear && clientStatus == old(clientStatus)
      ensures RunsTo(if clear then Stopping() else Free)
      ensures nodeStatus == if clear then ShutdownInprogress else OK
      ensures steps == old(steps) +
                [ConsensusAccept(member), NodeMachine.Raise, if clear then PeersAccept else PeersReject]
    {
      Move(StopChecking, ConsensusAccept(member), StopSleeping, nodeStatus, clientStatus);
      Move(StopSleeping, NodeMachine.Raise, StopPolling, ShutdownInprogress, clientStatus);
      if peersClear {
        Move(StopPolling, PeersAccept, Stopping(), nodeStatus, clientStatus);
      } else {
        Move(StopPolling, PeersReject, Free, OK, clientStatus);
      }
      return peersClear;
    }

    /** Both stops, and what their outcome leaves behind. */
    method StopAndHold(bc: Command, pm: Command) returns (ok: bool)
      requires RunsTo(Stopping()) && clientStatus == Up && nodeStatus == ShutdownInprogress
      modifies this`nodeStatus, this`clientStatus, this`steps, bcclnt.Obj(), PmObjs()
      ensures Valid() && old(steps) <= steps
      ensures ok <==> old(bcclnt.StopSucceeds(bc)) && (pmclnt.Some? ==> old(pmclnt.value.StopSucceeds(pm)))
      ensures ok ==> nodeStatus == OK && clientStatus == Down
      ensures ok ==> !bcclnt.Status() && (pmclnt.Some? ==> !pmclnt.value.Status())
      ensures !ok ==> nodeStatus == ShutdownInprogress && clientStatus == Up
    {
      var bcOk, pmOk := StopProcesses(bc, pm);
      if bcOk && pmOk {
        MarkAndHold();
      } else {
        Move(StopStopping(Some(bcOk), Some(pmOk)), StopsFail, Free, nodeStatus, clientStatus);
      }
      return bcOk && pmOk;
    }

    /** Stops the client if consensus and peers allow.  A client that is down needs
        no stop; a busy node, a failed consensus check, the strict mode of a member
        or an objecting peer each refuse it and leave the processes alone; then the
        stops decide, and a failed attempt leaves the node marked as shutting down. */
    method StopClient(w: StopWorld) returns (ok: bool)
      requires Valid()
      modifies this`nodeStatus, this`clientStatus, this`consValid, this`steps, bcclnt.Obj(), PmObjs()
      ensures Valid() && old(steps) <= steps
      ensures !old(clientStatus.Up?) ==> ok && clientStatus == old(clientStatus) && nodeStatus == old(nodeStatus)
      ensures !old(clientStatus.Up?) || !w.accepted || !w.peersClear || (w.member && cfg.strictMode) ||
              (goQuorum && !old(consValid) && !w.configMatches) ||
              old(nodeStatus) == ShutdownInprogress || old(nodeStatus) == StartupInprogress ==>
                unchanged(bcclnt.Obj()) && (pmclnt.Some? ==> unchanged(pmclnt.value.Obj()))
      ensures old(clientStatus.Up?) &&
              (old(nodeStatus) == ShutdownInprogress || old(nodeStatus) == StartupInprogress) ==>
                !ok && clientStatus == Up && nodeStatus == old(nodeStatus)
      ensures old(clientStatus.Up?) && old(nodeStatus) != ShutdownInprogress && old(nodeStatus) != StartupInprogress ==>
                if !w.accepted || (goQuorum && !old(consValid) && !w.configMatches) then
                  !ok && clientStatus == Up && nodeStatus == OK
                else if w.member && cfg.strictMode then
                  !ok && clientStatus == Up && nodeStatus == old(nodeStatus)
                else if !w.peersClear then
                  !ok && clientStatus == Up && nodeStatus == OK
                else
                  && (ok <==> old(bcclnt.StopSucceeds(w.bc)) &&
                              (pmclnt.Some? ==> old(pmclnt.value.StopSucceeds(w.pm))))
                  && (ok ==> nodeStatus == OK && clientStatus == Down && !bcclnt.Status() &&
                             (pmclnt.Some? ==> !pmclnt.value.Status()))
                  && (!ok ==> nodeStatus == ShutdownInprogress && clientStatus == Up)
      ensures consValid <==> old(consValid) ||
                             (old(clientStatus.Up?) && old(nodeStatus) != ShutdownInprogress &&
                              old(nodeStatus) != StartupInprogress && goQuorum && w.configMatches)
    {
      var outcome := DecideStop(w);
      if outcome != Attempted {
        return outcome == AlreadyDown;
      }
      ok := StopAndHold(w.bc, w.pm);
    }

    /** The client is marked as down before the flag changes to ConsensusWait. */
    method MarkAndHold()
      requires RunsTo(StopStopping(Some(true), Some(true)))
      modifies this`nodeStatus, this`clientStatus, this`steps
      ensures Valid() && nodeStatus == OK && clientStatus == Down
      ensures steps == old(steps) + [StopsOk, BeginWait, EndWait]
    {
      Move(StopStopping(Some(true), Some(true)), StopsOk, StopMarked, nodeStatus, Down);
      Move(StopMarked, BeginWait, StopHolding, ConsensusWait, clientStatus);
      Move(StopHolding, EndWait, Free, OK, clientStatus);
    }

    /** StartClient up to its check of the processes: a client that is up needs no start. */
    method EnterStartClient() returns (isUp: bool)
      requires Valid()
      modifies this`nodeStatus, this`clientStatus, this`steps
      ensures isUp <==> old(clientStatus.Up?)
      ensures RunsTo(if isUp then Free else StartProbing)
      ensures old(steps) <= steps
      ensures nodeStatus == old(nodeStatus) && clientStatus == old(clientStatus)
    {
      Move(Free, EnterStart, StartEntry, nodeStatus, clientStatus);
      if clientStatus == Up {
        Move(StartEntry, StartSeesUp, Free, nodeStatus, clientStatus);
        return true;
      }
      Move(StartEntry, StartNotUp, StartProbing, nodeStatus, clientStatus);
      return false;
    }

    /** A client that turns out to be up when asked needs no start either. */
    method ForceCheck(ghost bc: Command, ghost pm: Command) returns (isUp: bool)
      requires RunsTo(StartProbing) && !clientStatus.Up?
      modifies this`clientStatus, this`steps, bcclnt.Obj(), PmObjs()
      ensures RunsTo(if isUp then Free else StartProbed)
      ensures old(steps) <= steps
      ensures (isUp <==> bcclnt.Status() && PmUp()) && (isUp <==>
                old(UpNow())) && clientStatus == if isUp then Up else Down
      ensures bcclnt.StartSucceeds(bc) == old(bcclnt.StartsAfterCheck(bc))
      ensures PmStarts(pm) == old(PmStartsAfterCheck(pm))
    {
      ghost var s := Abs(StartProbing);
      isUp := Refresh(bc, pm);
      NoteForced(s, bc, pm);
    }

    ghost method NoteForced(s: Node, bc: Command, pm: Command)
      requires cfg.withPrivMan == pmclnt.Some? && Separate() && After(cfg, steps) == Some(s)
      requires s.pc.StartProbing? && !s.clientStatus.Up? && s.nodeStatus == nodeStatus
      requires clientStatus == if bcclnt.Status() && PmUp() then Up else Down
      modifies this`steps
      ensures bcclnt.StartSucceeds(bc) == old(bcclnt.StartSucceeds(bc)) && PmStarts(pm) == old(PmStarts(pm))
      ensures old(steps) <= steps && RunsTo(if clientStatus.Up? then Free else StartProbed)
    {
      Note(s, StartForced(bcclnt.Status(), PmUp()), Abs(if clientStatus.Up? then Free else StartProbed));
    }

    /** The privacy manager first, then the blockchain client, whatever the first did. */
    method StartBoth(bc: Command, pm: Command) returns (pmOk: bool, bcOk: bool)
      requires Separate()
      modifies bcclnt.Obj(), PmObjs()
      ensures Separate()
      ensures bcOk == bcclnt.Status() == old(bcclnt.StartSucceeds(bc))
      ensures pmOk == PmUp() == old(PmStarts(pm))
      ensures pmOk <==> pmclnt.None? || old(pmclnt.value.StartSucceeds(pm))
    {
      pmOk := true;
      if pmclnt.Some? {
        var err := pmclnt.value.Start(pm);
        pmOk := !err;
      }
      var err := bcclnt.Start(bc);
      bcOk := !err;
    }

    /** The recorded run gains one step for each start. */
    method StartProcesses(bc: Command, pm: Command) returns (pmOk: bool, bcOk: bool)
      requires RunsTo(StartPm)
      modifies this`steps, bcclnt.Obj(), PmObjs()
      ensures RunsTo(StartEnd(pmOk, bcOk))
      ensures bcOk == bcclnt.Status() == old(bcclnt.StartSucceeds(bc))
      ensures pmOk == PmUp() == old(PmStarts(pm))
      ensures steps == old(steps) + [PmStart(pmOk), BcStart(bcOk)]
    {
      ghost var s := Abs(StartPm);
      pmOk, bcOk := StartBoth(bc, pm);
      NoteStarts(s, pmOk, bcOk);
    }

    ghost method NoteStarts(s: Node, pmOk: bool, bcOk: bool)
      requires cfg.withPrivMan == pmclnt.Some? && Separate() && After(cfg, steps) == Some(s)
      requires s.pc.StartPm? && s.nodeStatus == nodeStatus && s.clientStatus == clientStatus
      requires pmOk == PmUp() && bcOk == bcclnt.Status()
      modifies this`steps
      ensures RunsTo(StartEnd(pmOk, bcOk)) && steps == old(steps) + [PmStart(pmOk), BcStart(bcOk)]
    {
      var mid := s.(pmUp := pmOk, pc := StartBc(pmOk));
      Note(s, PmStart(pmOk), mid);
      var end := mid.(bcUp := bcOk, pc := StartEnd(pmOk, bcOk));
      Note(mid, BcStart(bcOk), end);
      assert end == Abs(StartEnd(pmOk, bcOk));
    }

    /** From the first start to the end of the call. */
    method RunStart(bc: Command, pm: Command) returns (ok: bool)
      requires RunsTo(StartPm) && nodeStatus.StartupInprogress? && clientStatus.Down?
      modifies this`nodeStatus, this`clientStatus, this`steps, bcclnt.Obj(), PmObjs()
      ensures Valid() && old(steps) <= steps && (ok <==> bcclnt.Status() && PmUp())
      ensures ok <==> old(bcclnt.StartSucceeds(bc)) && old(PmStarts(pm))
      ensures nodeStatus == (if ok then OK else StartupInprogress) && clientStatus == if ok then Up else Down
    {
      var pmOk, bcOk := StartProcesses(bc, pm);
      FinishStarting(pmOk, bcOk);
      return pmOk && bcOk;
    }

    /** Succeeds exactly when the client is up afterwards, and then all processes
        are cached as up unless it was reported up all along; a failed start
        leaves the node marked as starting. */
    method StartClient(bc: Command, pm: Command) returns (ok: bool)
      requires Valid()
      modifies this`nodeStatus, this`clientStatus, this`steps, bcclnt.Obj(), PmObjs()
      ensures Valid() && old(steps) <= steps
      ensures ok <==> old(clientStatus.Up?) ||
                      (old(bcclnt.StartsAfterCheck(bc)) && (pmclnt.Some? ==> old(pmclnt.value.StartsAfterCheck(pm))))
      ensures ok <==> clientStatus == Up
      ensures old(clientStatus.Up?) ==> nodeStatus == old(nodeStatus) && unchanged(bcclnt.Obj())
                                        && (pmclnt.Some? ==> unchanged(pmclnt.value.Obj()))
      ensures !old(clientStatus.Up?) && ok ==> bcclnt.Status() && PmUp()
      ensures ok ==> nodeStatus == if old(clientStatus.Up?) || old(UpNow()) then old(nodeStatus) else OK
      ensures !ok ==> clientStatus == Down && nodeStatus == StartupInprogress && !(bcclnt.Status() && PmUp())
    {
      var isUp := EnterStartClient();
      if isUp {
        return true;
      }
      isUp := ForceCheck(bc, pm);
      if isUp {
        return true;
      }
      Move(StartProbed, BeginStart, StartPm, StartupInprogress, clientStatus);
      ok := RunStart(bc, pm);
    }

    method FinishStarting(pmOk: bool, bcOk: bool)
      requires RunsTo(StartEnd(pmOk, bcOk))
      modifies this`nodeStatus, this`clientStatus, this`steps
      ensures Valid() && old(steps) <= steps
      ensures pmOk && bcOk ==> nodeStatus == OK && clientStatus == Up
      ensures !(pmOk && bcOk) ==> nodeStatus == old(nodeStatus) && clientStatus == old(clientStatus)
    {
      if pmOk && bcOk {
        Move(StartEnd(true, true), StartsOk, StartMarked, nodeStatus, Up);
        Move(StartMarked, FinishStart, Free, OK, clientStatus);
      } else {
        Move(StartEnd(pmOk, bcOk), StartsFail, Free, nodeStatus, clientStatus);
      }
    }

    /** What a handler asks for: the client up, by a start if need be. */
    method PrepareClient(bc: Command, pm: Command) returns (ok: bool)
      requires Valid()
      modifies this`nodeStatus, this`clientStatus, this`steps, bcclnt.Obj(), PmObjs()
      ensures Valid() && old(steps) <= steps && (ok <==> clientStatus == Up)
      ensures old(clientStatus.Up?) ==> ok && nodeStatus == old(nodeStatus)
    {
      ok := StartClient(bc, pm);
    }

    method ResetInactiveSyncTime()
      requires Valid()
      modifies this`inactivityResets, this`syncResets
      ensures Valid()
      ensures inactivityResets == old(inactivityResets) + 1
      ensures syncResets == old(syncResets) + if resyncTimerSet then 1 else 0
    {
      inactivityResets := inactivityResets + 1;
      if resyncTimerSet {
        syncResets := syncResets + 1;
      }
    }

    /** The answer to a peer that prepares a private transaction: ready exactly if
        this node is neither busy nor down; if down it is started in the
        background, after the answer.  Whatever the answer, the trackers are reset. */
    method PrepareForPrivateTx(bc: Command, pm: Command) returns (ready: bool, startsInBackground: bool)
      requires Valid()
      modifies Repr()
      ensures Valid() && nodeStatus == old(nodeStatus) && clientStatus == old(clientStatus) && old(steps) <= steps
      ensures inactivityResets == old(inactivityResets) + 1
      ensures syncResets == old(syncResets) + if resyncTimerSet then 1 else 0
      ensures old(nodeStatus) == ShutdownInprogress || old(nodeStatus) == StartupInprogress ==>
                !ready && !startsInBackground
      ensures old(nodeStatus) != ShutdownInprogress && old(nodeStatus) != StartupInprogress ==>
                (ready <==> old(clientStatus.Up?)) && (startsInBackground <==> !old(clientStatus.Up?))
    {
      ResetInactiveSyncTime();
      var busy := IsNodeBusy();
      if busy {
        return false, false;
      }
      if clientStatus != Up {
        return false, true;
      }
      ready := PrepareClient(bc, pm);
      return ready, false;
    }
  }

  datatype StopOutcome = AlreadyDown | NodeBusy | ConsensusForbids | StrictModeForbids | PeersForbid | Attempted
}
