/** One node hibernator as a machine of atomic steps.  StopClient and StartClient
    run under a mutex, so that one program point describes them; upchecks by
    other threads may come between any two of their steps. */
module NodeMachine {
  import opened Basics
  import opened Core

  /** bc0 and pm0 are what the first upchecks say. */
  datatype Config = Config(withPrivMan: bool, strictMode: bool, bc0: bool, pm0: bool)

  /** The program point of the thread that holds the start/stop mutex. */
  datatype Point =
    | Free
    | StopEntry
    | StopSawUp
    | StopChecking                                      // at the consensus check
    | StopSleeping                                      // before the flag is raised
    | StopPolling                                       // at the validation of peers
    | StopStopping(bc: Option<bool>, pm: Option<bool>)  // which stops have returned, and how
    | StopMarked                                        // client marked as down
    | StopHolding                                       // waiting for consensus
    | StartEntry
    | StartProbing                                      // first read saw the client not up
    | StartProbed                                       // going to start
    | StartPm
    | StartBc(pmOk: bool)
    | StartEnd(pmOk: bool, bcOk: bool)
    | StartMarked                                       // client marked as up

  /** bcUp and pmUp are the cached statuses of the two processes. */
  datatype Node = Node(nodeStatus: NodeStatus, clientStatus: ClientStatus, bcUp: bool, pmUp: bool, pc: Point)

  datatype Step =
    | Upcheck(force: bool, bc: bool, pm: bool)   // CheckClientUpStatus of another thread
    | EnterStop
    | StopNotUp                                  // client is down already
    | StopSeesUp
    | StopBusy
    | StopCheck
    | ConsensusReject
    | StrictRefuse
    | ConsensusAccept(member: bool)
    | Raise
    | PeersReject
    | PeersAccept
    | ProbeBc(up: bool)                          // upcheck of a stop or start that waits
    | ProbePm(up: bool)
    | BcStop(ok: bool, up: bool)
    | PmStop(ok: bool, up: bool)
    | StopsOk
    | StopsFail
    | BeginWait
    | EndWait
    | EnterStart
    | StartSeesUp
    | StartNotUp
    | StartSecondRead                            // client came up since the first read
    | StartForced(bc: bool, pm: bool)            // forced upcheck
    | BeginStart
    | PmStart(ok: bool)
    | BcStart(ok: bool)
    | StartsOk
    | StartsFail
    | FinishStart

  predicate Starting(pc: Point) {
    pc.StartProbing? || pc.StartProbed? || pc.StartPm? || pc.StartBc? || pc.StartEnd?
  }

  /** The steps that only StopClient takes. */
  predicate OfStop(e: Step) {
    || e.EnterStop? || e.StopNotUp? || e.StopSeesUp? || e.StopBusy? || e.StopCheck? || e.ConsensusReject?
    || e.StrictRefuse? || e.ConsensusAccept? || e.Raise? || e.PeersReject? || e.PeersAccept?
    || e.BcStop? || e.PmStop? || e.StopsOk? || e.StopsFail? || e.BeginWait? || e.EndWait?
  }

  /** A process stop that returns no error leaves the process cached as down. */
  predicate Enabled(c: Config, s: Node, e: Step) {
    match e
    case Upcheck(force, _, _) => s.clientStatus.Up? || force
    case EnterStop => s.pc.Free?
    case StopNotUp => s.pc.StopEntry? && !s.clientStatus.Up?
    case StopSeesUp => s.pc.StopEntry? && s.clientStatus.Up?
    case StopBusy => s.pc.StopSawUp? && Busy(s.nodeStatus)
    case StopCheck => s.pc.StopSawUp? && !Busy(s.nodeStatus)
    case ConsensusReject => s.pc.StopChecking?
    case StrictRefuse => s.pc.StopChecking? && c.strictMode
    case ConsensusAccept(member) => s.pc.StopChecking? && !(member && c.strictMode)
    case Raise => s.pc.StopSleeping?
    case PeersReject => s.pc.StopPolling?
    case PeersAccept => s.pc.StopPolling?
    case ProbeBc(_) => (s.pc.StopStopping? && s.pc.bc.None?) || s.pc.StartBc?
    case ProbePm(_) => c.withPrivMan && ((s.pc.StopStopping? && s.pc.pm.None?) || s.pc.StartPm?)
    case BcStop(ok, up) => s.pc.StopStopping? && s.pc.bc.None? && (ok ==> !up)
    case PmStop(ok, up) => s.pc.StopStopping? && s.pc.pm.None? && (ok ==> !up)
    case StopsOk => s.pc == StopStopping(Some(true), Some(true))
    case StopsFail => s.pc.StopStopping? && s.pc.bc.Some? && s.pc.pm.Some? && !(s.pc.bc.value && s.pc.pm.value)
    case BeginWait => s.pc.StopMarked?
    case EndWait => s.pc.StopHolding?
    case EnterStart => s.pc.Free?
    case StartSeesUp => s.pc.StartEntry? && s.clientStatus.Up?
    case StartNotUp => s.pc.StartEntry? && !s.clientStatus.Up?
    case StartSecondRead => s.pc.StartProbing? && s.clientStatus.Up?
    case StartForced(_, _) => s.pc.StartProbing? && !s.clientStatus.Up?
    case BeginStart => s.pc.StartProbed?
    case PmStart(ok) => s.pc.StartPm? && (!c.withPrivMan ==> ok)
    case BcStart(_) => s.pc.StartBc?
    case StartsOk => s.pc == StartEnd(true, true)
    case StartsFail => s.pc.StartEnd? && !(s.pc.pmOk && s.pc.bcOk)
    case FinishStart => s.pc.StartMarked?
  }

  /** The effect of an upcheck of both processes on the cached statuses. */
  function Checked(c: Config, s: Node, bc: bool, pm: bool): Node {
    var pmUp := !c.withPrivMan || pm;
    s.(bcUp := bc, pmUp := pmUp, clientStatus := if bc && pmUp then Up else Down)
  }

  /** Without a privacy manager there is nothing to stop, and nothing to wait for. */
  function Apply(c: Config, s: Node, e: Step): Node
    requires Enabled(c, s, e)
  {
    match e
    case Upcheck(_, bc, pm) => Checked(c, s, bc, pm)
    case EnterStop => s.(pc := StopEntry)
    case StopNotUp => s.(pc := Free)
    case StopSeesUp => s.(pc := StopSawUp)
    case StopBusy => s.(pc := Free)
    case StopCheck => s.(pc := StopChecking)
    case ConsensusReject => s.(pc := Free, nodeStatus := OK)
    case StrictRefuse => s.(pc := Free)
    case ConsensusAccept(_) => s.(pc := StopSleeping)
    case Raise => s.(pc := StopPolling, nodeStatus := ShutdownInprogress)
    case PeersReject => s.(pc := Free, nodeStatus := OK)
    case PeersAccept => s.(pc := StopStopping(None, if c.withPrivMan then None else Some(true)))
    case ProbeBc(up) => s.(bcUp := up)
    case ProbePm(up) => s.(pmUp := up)
    case BcStop(ok, up) => s.(pc := StopStopping(Some(ok), s.pc.pm), bcUp := up)
    case PmStop(ok, up) => s.(pc := StopStopping(s.pc.bc, Some(ok)), pmUp := up)
    case StopsOk => s.(pc := StopMarked, clientStatus := Down)
    case StopsFail => s.(pc := Free)
    case BeginWait => s.(pc := StopHolding, nodeStatus := ConsensusWait)
    case EndWait => s.(pc := Free, nodeStatus := OK)
    case EnterStart => s.(pc := StartEntry)
    case StartSeesUp => s.(pc := Free)
    case StartNotUp => s.(pc := StartProbing)
    case StartSecondRead => s.(pc := StartProbed)
    case StartForced(bc, pm) =>
      var t := Checked(c, s, bc, pm);
      t.(pc := if t.clientStatus.Up? then Free else StartProbed)
    case BeginStart => s.(pc := StartPm, nodeStatus := StartupInprogress)
    case PmStart(ok) => s.(pc := StartBc(ok), pmUp := ok)
    case BcStart(ok) => s.(pc := StartEnd(s.pc.pmOk, ok), bcUp := ok)
    case StartsOk => s.(pc := StartMarked, clientStatus := Up)
    case StartsFail => s.(pc := Free)
    case FinishStart => s.(pc := Free, nodeStatus := OK)
  }

  function Init(c: Config): Node {
    Node(OK, Unknown, c.bc0, !c.withPrivMan || c.pm0, Free)
  }

  /** The state a run of steps leads to; None if some step could not happen. */
  ghost function After(c: Config, steps: seq<Step>): Option<Node>
    decreases |steps|
  {
    if steps == [] then Some(Init(c)) else
      match After(c, steps[..|steps| - 1])
      case None => None
      case Some(s) =>
        if Enabled(c, s, steps[|steps| - 1]) then Some(Apply(c, s, steps[|steps| - 1])) else None
  }

  lemma AfterSnoc(c: Config, steps: seq<Step>, e: Step)
    requires After(c, steps).Some? && Enabled(c, After(c, steps).value, e)
    ensures After(c, steps + [e]) == Some(Apply(c, After(c, steps).value, e))
  {
    assert (steps + [e])[..|steps|] == steps;
  }

  // ---- The node status over every run --------------------------------------

  /** The status that each program point of StopClient and StartClient implies. */
  predicate StatusFits(s: Node) {
    && (s.nodeStatus == ConsensusWait <==> s.pc.StopHolding?)
    && s.nodeStatus != Unset
    && (s.pc.StopChecking? || s.pc.StopSleeping? ==> s.nodeStatus == OK)
    && (s.pc.StopPolling? || s.pc.StopStopping? || s.pc.StopMarked? ==> s.nodeStatus == ShutdownInprogress)
    && (s.pc.StartPm? || s.pc.StartBc? || s.pc.StartEnd? || s.pc.StartMarked? ==> s.nodeStatus == StartupInprogress)
  }

  /** How the last stop or start that got as far as setting the status ended. */
  datatype Verdict = Settled | StopFailed | StartFailed

  function StatusOf(v: Verdict): NodeStatus {
    match v case Settled => OK case StopFailed => ShutdownInprogress case StartFailed => StartupInprogress
  }

  function NextVerdict(v: Verdict, e: Step): Verdict {
    match e
    case ConsensusReject => Settled
    case PeersReject => Settled
    case EndWait => Settled
    case FinishStart => Settled
    case StopsFail => StopFailed
    case StartsFail => StartFailed
    case _ => v
  }

  function LastVerdict(steps: seq<Step>): Verdict {
    if steps == [] then Settled else NextVerdict(LastVerdict(steps[..|steps| - 1]), steps[|steps| - 1])
  }

  /** Program points at which the running call has not yet touched the status. */
  predicate Untouched(pc: Point) {
    || pc.Free? || pc.StopEntry? || pc.StopSawUp? || pc.StopChecking? || pc.StopSleeping?
    || pc.StartEntry? || pc.StartProbing? || pc.StartProbed?
  }

  /** Main result: in every run the status fits the program point, and whenever
      the mutex is free it is explained by the last verdict: being shut down
      means that a process stop failed, being started that a start failed. */
  lemma {:induction false} StatusExplained(c: Config, steps: seq<Step>)
    requires After(c, steps).Some?
    ensures var s := After(c, steps).value;
            StatusFits(s) && (Untouched(s.pc) ==> s.nodeStatus == StatusOf(LastVerdict(steps)))
    decreases |steps|
  {
    if steps != [] {
      var n := |steps| - 1;
      StatusExplained(c, steps[..n]);
      StepFits(c, After(c, steps[..n]).value, steps[n]);
      StepExplained(c, After(c, steps[..n]).value, steps[n], LastVerdict(steps[..n]));
    }
  }

  lemma StepFits(c: Config, s: Node, e: Step)
    requires Enabled(c, s, e) && StatusFits(s)
    ensures StatusFits(Apply(c, s, e))
  {
    if OfStop(e) {
      StepFitsInStop(c, s, e);
    } else {
      StepFitsOtherwise(c, s, e);
    }
  }

  lemma StepFitsInStop(c: Config, s: Node, e: Step)
    requires OfStop(e) && Enabled(c, s, e) && StatusFits(s)
    ensures StatusFits(Apply(c, s, e))
  {
  }

  lemma StepFitsOtherwise(c: Config, s: Node, e: Step)
    requires !OfStop(e) && Enabled(c, s, e) && StatusFits(s)
    ensures StatusFits(Apply(c, s, e))
  {
  }

  lemma StepExplained(c: Config, s: Node, e: Step, v: Verdict)
    requires Enabled(c, s, e) && StatusFits(s) && (Untouched(s.pc) ==> s.nodeStatus == StatusOf(v))
    ensures Untouched(Apply(c, s, e).pc) ==> Apply(c, s, e).nodeStatus == StatusOf(NextVerdict(v, e))
  {
    if OfStop(e) {
      StepExplainedInStop(c, s, e, v);
    } else {
      StepExplainedOtherwise(c, s, e, v);
    }
  }

  lemma StepExplainedInStop(c: Config, s: Node, e: Step, v: Verdict)
    requires OfStop(e) && Enabled(c, s, e) && StatusFits(s) && (Untouched(s.pc) ==> s.nodeStatus == StatusOf(v))
    ensures Untouched(Apply(c, s, e).pc) ==> Apply(c, s, e).nodeStatus == StatusOf(NextVerdict(v, e))
  {
  }

  lemma StepExplainedOtherwise(c: Config, s: Node, e: Step, v: Verdict)
    requires !OfStop(e) && Enabled(c, s, e) && StatusFits(s) && (Untouched(s.pc) ==> s.nodeStatus == StatusOf(v))
    ensures Untouched(Apply(c, s, e).pc) ==> Apply(c, s, e).nodeStatus == StatusOf(NextVerdict(v, e))
  {
  }

  lemma StatusStep(c: Config, s: Node, e: Step)
    requires StatusFits(s) && Enabled(c, s, e)
    ensures var status := Apply(c, s, e).nodeStatus;
            && (status == ShutdownInprogress <==>
                e.Raise? || (s.nodeStatus == ShutdownInprogress && !(e.PeersReject? || e.BeginWait? || e.BeginStart?)))
            && (status == ConsensusWait <==> e.BeginWait? || (s.nodeStatus == ConsensusWait && !e.EndWait?))
            && (status == StartupInprogress <==>
                e.BeginStart? || (s.nodeStatus == StartupInprogress && !e.FinishStart?))
            && status != Unset
  {
  }

  lemma ClientStep(c: Config, s: Node, e: Step)
    requires Enabled(c, s, e)
    ensures var t := Apply(c, s, e);
            && (t.clientStatus.Unknown? <==>
                s.clientStatus.Unknown? && !e.StartsOk? && !e.StopsOk? && !e.Upcheck? && !e.StartForced?)
            && (t.clientStatus.Up? <==>
                if e.Upcheck? || e.StartForced? then e.bc && (c.withPrivMan ==> e.pm)
                else e.StartsOk? || (s.clientStatus.Up? && !e.StopsOk?))
  {
  }

  /** The status as the steps of the run explain it, read off the run alone. */
  lemma {:induction false} StatusFromSteps(c: Config, steps: seq<Step>)
    requires After(c, steps).Some?
    ensures var status := After(c, steps).value.nodeStatus;
            && (status == ShutdownInprogress <==>
                Since(steps, (e: Step) => e.Raise?, (e: Step) => e.PeersReject? || e.BeginWait? || e.BeginStart?))
            && (status == ConsensusWait <==> Since(steps, (e: Step) => e.BeginWait?, (e: Step) => e.EndWait?))
            && (status == StartupInprogress <==>
                Since(steps, (e: Step) => e.BeginStart?, (e: Step) => e.FinishStart?))
            && status != Unset
    decreases |steps|
  {
    if steps != [] {
      var front := steps[..|steps| - 1];
      StatusExplained(c, front);
      StatusFromSteps(c, front);
      StatusStep(c, After(c, front).value, steps[|steps| - 1]);
      SinceSnoc(steps, (e: Step) => e.Raise?, (e: Step) => e.PeersReject? || e.BeginWait? || e.BeginStart?);
      SinceSnoc(steps, (e: Step) => e.BeginWait?, (e: Step) => e.EndWait?);
      SinceSnoc(steps, (e: Step) => e.BeginStart?, (e: Step) => e.FinishStart?);
    }
  }

  /** The client is marked as up since a start or an upcheck of both processes said
      so, and is unknown until the first of them. */
  lemma {:induction false} ClientFromSteps(c: Config, steps: seq<Step>)
    requires After(c, steps).Some?
    ensures After(c, steps).value.clientStatus.Up? <==>
            Since(steps,
                  (e: Step) => e.StartsOk? || ((e.Upcheck? || e.StartForced?) && e.bc && (c.withPrivMan ==> e.pm)),
                  (e: Step) => e.StopsOk? || ((e.Upcheck? || e.StartForced?) && !(e.bc && (c.withPrivMan ==> e.pm))))
    ensures After(c, steps).value.clientStatus.Unknown? <==>
            forall e :: e in steps ==> !e.StartsOk? && !e.StopsOk? && !e.Upcheck? && !e.StartForced?
    decreases |steps|
  {
    if steps != [] {
      var front, last := steps[..|steps| - 1], steps[|steps| - 1];
      ClientFromSteps(c, front);
      ClientStep(c, After(c, front).value, last);
      assert steps == front + [last];
      SinceSnoc(steps,
                (e: Step) => e.StartsOk? || ((e.Upcheck? || e.StartForced?) && e.bc && (c.withPrivMan ==> e.pm)),
                (e: Step) => e.StopsOk? || ((e.Upcheck? || e.StartForced?) && !(e.bc && (c.withPrivMan ==> e.pm))));
    }
  }

  lemma CacheStep(c: Config, s: Node, e: Step)
    requires Enabled(c, s, e)
    ensures Apply(c, s, e).bcUp ==
            if e.Upcheck? || e.StartForced? then e.bc
            else if e.ProbeBc? || e.BcStop? then e.up
            else if e.BcStart? then e.ok else s.bcUp
  {
  }

  /** What is cached of the blockchain client is what the last step that asked it,
      stopped it or started it found. */
  lemma {:induction false} CacheFromSteps(c: Config, steps: seq<Step>)
    requires After(c, steps).Some?
    ensures After(c, steps).value.bcUp <==>
            Since(steps,
                  (e: Step) => ((e.Upcheck? || e.StartForced?) && e.bc) || ((e.ProbeBc? || e.BcStop?) && e.up) ||
                               (e.BcStart? && e.ok),
                  (e: Step) => ((e.Upcheck? || e.StartForced?) && !e.bc) || ((e.ProbeBc? || e.BcStop?) && !e.up) ||
                               (e.BcStart? && !e.ok)) ||
            (c.bc0 && forall e :: e in steps ==>
               !e.Upcheck? && !e.StartForced? && !e.ProbeBc? && !e.BcStop? && !e.BcStart?)
    decreases |steps|
  {
    if steps != [] {
      var front, last := steps[..|steps| - 1], steps[|steps| - 1];
      CacheFromSteps(c, front);
      CacheStep(c, After(c, front).value, last);
      assert steps == front + [last];
      SinceSnoc(steps,
                (e: Step) => ((e.Upcheck? || e.StartForced?) && e.bc) || ((e.ProbeBc? || e.BcStop?) && e.up) ||
                             (e.BcStart? && e.ok),
                (e: Step) => ((e.Upcheck? || e.StartForced?) && !e.bc) || ((e.ProbeBc? || e.BcStop?) && !e.up) ||
                             (e.BcStart? && !e.ok));
    }
  }

  /** And so for the privacy manager; without one nothing is cached as down. */
  lemma {:induction false} PmCacheFromSteps(c: Config, steps: seq<Step>)
    requires After(c, steps).Some?
    ensures !c.withPrivMan ==> After(c, steps).value.pmUp
    ensures !c.withPrivMan && After(c, steps).value.pc.StopStopping? ==> After(c, steps).value.pc.pm.Some?
    ensures c.withPrivMan ==>
              (After(c, steps).value.pmUp <==>
               Since(steps,
                     (e: Step) => ((e.Upcheck? || e.StartForced?) && e.pm) || ((e.ProbePm? || e.PmStop?) && e.up) ||
                                  (e.PmStart? && e.ok),
                     (e: Step) => ((e.Upcheck? || e.StartForced?) && !e.pm) || ((e.ProbePm? || e.PmStop?) && !e.up) ||
                                  (e.PmStart? && !e.ok)) ||
               (c.pm0 && forall e :: e in steps ==>
                  !e.Upcheck? && !e.StartForced? && !e.ProbePm? && !e.PmStop? && !e.PmStart?))
    decreases |steps|
  {
    if steps != [] {
      var front, last := steps[..|steps| - 1], steps[|steps| - 1];
      PmCacheFromSteps(c, front);
      assert steps == front + [last];
      SinceSnoc(steps,
                (e: Step) => ((e.Upcheck? || e.StartForced?) && e.pm) || ((e.ProbePm? || e.PmStop?) && e.up) ||
                             (e.PmStart? && e.ok),
                (e: Step) => ((e.Upcheck? || e.StartForced?) && !e.pm) || ((e.ProbePm? || e.PmStop?) && !e.up) ||
                             (e.PmStart? && !e.ok));
    }
  }

  /** The status changes only while the mutex is held. */
  lemma StatusChangesUnderLock(c: Config, s: Node, e: Step)
    requires Enabled(c, s, e) && Apply(c, s, e).nodeStatus != s.nodeStatus
    ensures !s.pc.Free? && e.Upcheck? == false
  {
  }

  // ---- Upchecks and returns ------------------------------------------------

  /** Upchecks by other threads can come at any moment, whatever the call is at; one
      that is not insisted on only while the client is taken to be up. */
  lemma UpchecksComeAnyTime(c: Config, s: Node, bc: bool, pm: bool)
    ensures Enabled(c, s, Upcheck(true, bc, pm))
    ensures Enabled(c, s, Upcheck(false, bc, pm)) <==> s.clientStatus.Up?
    ensures var t := Apply(c, s, Upcheck(true, bc, pm)); t.pc == s.pc && t.nodeStatus == s.nodeStatus
  {
  }

  /** A stop or start that waits asks its process, and the call stays where it is. */
  lemma WaitsProbe(c: Config, s: Node, up: bool)
    ensures Enabled(c, s, ProbeBc(up)) <==> (s.pc.StopStopping? && s.pc.bc.None?) || s.pc.StartBc?
    ensures Enabled(c, s, ProbePm(up)) <==> c.withPrivMan && ((s.pc.StopStopping? && s.pc.pm.None?) || s.pc.StartPm?)
    ensures Enabled(c, s, ProbeBc(up)) ==> Apply(c, s, ProbeBc(up)) == s.(bcUp := up)
    ensures Enabled(c, s, ProbePm(up)) ==> Apply(c, s, ProbePm(up)) == s.(pmUp := up)
  {
  }

  /** A client that comes up between the two reads of StartClient is started anyway. */
  lemma SecondReadStarts(c: Config, steps: seq<Step>, bc: bool, pm: bool)
    requires After(c, steps).Some? && After(c, steps).value.pc.StartProbing?
    requires After(c, steps).value.clientStatus.Up?
    ensures After(c, steps + [StartSecondRead]).Some? && After(c, steps + [StartSecondRead]).value.pc.StartProbed?
    ensures After(c, steps + [StartForced(bc, pm)]).None?
  {
    AfterSnoc(c, steps, StartSecondRead);
    assert (steps + [StartForced(bc, pm)])[..|steps|] == steps;
  }

  /** One way for the thread that holds the mutex to go on. */
  function Onward(s: Node): Step
    requires !s.pc.Free?
  {
    match s.pc
    case Free => EnterStop
    case StopEntry => if s.clientStatus.Up? then StopSeesUp else StopNotUp
    case StopSawUp => if Busy(s.nodeStatus) then StopBusy else StopCheck
    case StopChecking => ConsensusReject
    case StopSleeping => Raise
    case StopPolling => PeersReject
    case StopStopping(bc, pm) =>
      if bc.None? then BcStop(true, false) else if pm.None? then PmStop(true, false)
      else if bc.value && pm.value then StopsOk else StopsFail
    case StopMarked => BeginWait
    case StopHolding => EndWait
    case StartEntry => if s.clientStatus.Up? then StartSeesUp else StartNotUp
    case StartProbing => if s.clientStatus.Up? then StartSecondRead else StartForced(false, false)
    case StartProbed => BeginStart
    case StartPm => PmStart(true)
    case StartBc(_) => BcStart(true)
    case StartEnd(pmOk, bcOk) => if pmOk && bcOk then StartsOk else StartsFail
    case StartMarked => FinishStart
  }

  function Ahead(pc: Point): nat {
    match pc
    case Free => 0
    case StopEntry => 9
    case StopSawUp => 8
    case StopChecking => 7
    case StopSleeping => 6
    case StopPolling => 5
    case StopStopping(bc, pm) => 3 + (if bc.None? then 1 else 0) + (if pm.None? then 1 else 0)
    case StopMarked => 2
    case StopHolding => 1
    case StartEntry => 7
    case StartProbing => 6
    case StartProbed => 5
    case StartPm => 4
    case StartBc(_) => 3
    case StartEnd(_, _) => 2
    case StartMarked => 1
  }

  lemma OnwardLeads(c: Config, s: Node)
    requires !s.pc.Free?
    ensures Enabled(c, s, Onward(s)) && Ahead(Apply(c, s, Onward(s)).pc) < Ahead(s.pc)
  {
  }

  /** No call is ever stuck: from every point of every run the mutex can be freed,
      by the steps of the call alone and in at most nine of them. */
  lemma {:induction false} CallsReturn(c: Config, steps: seq<Step>) returns (more: seq<Step>)
    requires After(c, steps).Some?
    ensures After(c, steps + more).Some? && After(c, steps + more).value.pc.Free?
    ensures |more| <= Ahead(After(c, steps).value.pc) <= 9 && forall e :: e in more ==> !e.Upcheck?
    decreases Ahead(After(c, steps).value.pc)
  {
    var s := After(c, steps).value;
    if s.pc.Free? {
      more := [];
      assert steps + more == steps;
    } else {
      OnwardLeads(c, s);
      AfterSnoc(c, steps, Onward(s));
      var rest := CallsReturn(c, steps + [Onward(s)]);
      more := [Onward(s)] + rest;
      assert steps + more == steps + [Onward(s)] + rest;
    }
  }

  // ---- A failed stop or start blocks all further stops ---------------------

  predicate Blocked(s: Node) {
    && Busy(s.nodeStatus)
    && (Untouched(s.pc) || s.pc.StartPm? || s.pc.StartBc? || s.pc.StartEnd? || s.pc.StartMarked?)
    && !s.pc.StopChecking? && !s.pc.StopSleeping?
  }

  /** Main result: once a call ends with the node busy, however the run goes on,
      no process is told to stop before a start has brought both up. */
  lemma {:induction false} FailureBlocksStops(c: Config, steps: seq<Step>, more: seq<Step>)
    requires After(c, steps).Some? && After(c, steps).value.pc.Free?
    requires After(c, steps).value.nodeStatus in {ShutdownInprogress, StartupInprogress}
    requires After(c, steps + more).Some? && FinishStart !in more
    ensures Blocked(After(c, steps + more).value)
    ensures forall e :: e in more ==> !e.BcStop? && !e.PmStop? && !e.PeersAccept?
    decreases |more|
  {
    if more == [] {
      assert steps + more == steps;
    } else {
      var front, e := more[..|more| - 1], more[|more| - 1];
      assert more == front + [e];
      assert steps + more == steps + front + [e];
      LastStep(c, steps + front, e);
      FailureBlocksStops(c, steps, front);
      BlockedStep(c, After(c, steps + front).value, e);
    }
  }

  lemma LastStep(c: Config, front: seq<Step>, e: Step)
    requires After(c, front + [e]).Some?
    ensures After(c, front).Some? && Enabled(c, After(c, front).value, e)
    ensures After(c, front + [e]).value == Apply(c, After(c, front).value, e)
  {
    assert (front + [e])[..|front|] == front;
  }

  lemma BlockedStep(c: Config, s: Node, e: Step)
    requires Enabled(c, s, e) && Blocked(s) && e != FinishStart
    ensures Blocked(Apply(c, s, e)) && !e.BcStop? && !e.PmStop? && !e.PeersAccept?
  {
  }

  // ---- Coherence of the cached statuses ------------------------------------

  /** A client reported as up has all its processes cached as up, except while
      the node is being shut down. */
  predicate Coherent(s: Node) {
    s.clientStatus.Up? && s.nodeStatus != ShutdownInprogress ==> s.bcUp && s.pmUp
  }

  predicate UpIsUp(s: Node) {
    s.clientStatus.Up? ==> s.bcUp && s.pmUp
  }

  /** What quiet starts keep at each program point. */
  predicate CacheFits(s: Node) {
    && (s.nodeStatus != ShutdownInprogress || s.pc.StopPolling? || s.pc.StopMarked? ==> UpIsUp(s))
    && (Starting(s.pc) ==> !s.clientStatus.Up?)
    && (s.pc.StartBc? && s.pc.pmOk ==> s.pmUp)
    && (s.pc.StartEnd? ==> (s.pc.pmOk ==> s.pmUp) && (s.pc.bcOk ==> s.bcUp))
  }

  /** An upcheck of another thread that lands between the steps of a start. */
  predicate LandsInStart(s: Node, e: Step) {
    e.Upcheck? && Starting(s.pc)
  }

  /** How many upchecks of a run land inside a start. */
  ghost function LoudChecks(c: Config, steps: seq<Step>): nat
    requires After(c, steps).Some?
    decreases |steps|
  {
    if steps == [] then 0 else
      var n := |steps| - 1;
      LoudChecks(c, steps[..n]) + if LandsInStart(After(c, steps[..n]).value, steps[n]) then 1 else 0
  }

  /** The upchecks at five points, from the first read that saw the client not up to
      the verdict on the starts. */
  ghost function LoudSet(c: Config, steps: seq<Step>): set<int> {
    set k | 0 <= k < |steps| && steps[k].Upcheck? &&
            match After(c, steps[..k])
            case None => false
            case Some(s) => s.pc.StartProbing? || s.pc.StartProbed? || s.pc.StartPm? || s.pc.StartBc? || s.pc.StartEnd?
  }

  lemma LoudSetSnoc(c: Config, front: seq<Step>, e: Step)
    requires After(c, front).Some?
    ensures LoudSet(c, front + [e]) ==
            LoudSet(c, front) + if LandsInStart(After(c, front).value, e) then {|front|} else {}
  {
    var all := front + [e];
    assert all[..|front|] == front;
    forall k | 0 <= k < |front| ensures all[..k] == front[..k] && all[k] == front[k] {
    }
  }

  lemma {:induction false} LoudChecksCounted(c: Config, steps: seq<Step>)
    requires After(c, steps).Some?
    ensures LoudChecks(c, steps) == |LoudSet(c, steps)|
    decreases |steps|
  {
    if steps != [] {
      var front, e := steps[..|steps| - 1], steps[|steps| - 1];
      assert steps == front + [e];
      LoudChecksCounted(c, front);
      LoudSetSnoc(c, front, e);
    }
  }

  lemma {:induction false} QuietRunsFit(c: Config, steps: seq<Step>)
    requires After(c, steps).Some? && LoudChecks(c, steps) == 0
    ensures StatusFits(After(c, steps).value) && CacheFits(After(c, steps).value)
    decreases |steps|
  {
    if steps != [] {
      var n := |steps| - 1;
      QuietRunsFit(c, steps[..n]);
      QuietStepFits(c, After(c, steps[..n]).value, steps[n]);
      StepFits(c, After(c, steps[..n]).value, steps[n]);
    }
  }

  lemma QuietStepFits(c: Config, s: Node, e: Step)
    requires Enabled(c, s, e) && !LandsInStart(s, e) && StatusFits(s) && CacheFits(s)
    ensures CacheFits(Apply(c, s, e))
  {
    if OfStop(e) {
      QuietStepFitsInStop(c, s, e);
    } else {
      QuietStepFitsOtherwise(c, s, e);
    }
  }

  lemma QuietStepFitsInStop(c: Config, s: Node, e: Step)
    requires OfStop(e) && Enabled(c, s, e) && !LandsInStart(s, e) && StatusFits(s) && CacheFits(s)
    ensures CacheFits(Apply(c, s, e))
  {
  }

  lemma QuietStepFitsOtherwise(c: Config, s: Node, e: Step)
    requires !OfStop(e) && Enabled(c, s, e) && !LandsInStart(s, e) && StatusFits(s) && CacheFits(s)
    ensures CacheFits(Apply(c, s, e))
  {
  }

  /** An upcheck that finds a process down just after its start returned is
      overwritten by the start's own verdict; one such upcheck is enough. */
  lemma LoudStartBreaksCoherence(c: Config) returns (steps: seq<Step>)
    ensures After(c, steps).Some? && LoudChecks(c, steps) == 1 && !Coherent(After(c, steps).value)
  {
    var starting := StartBothProcesses(c);
    var s := Node(StartupInprogress, Down, true, true, StartEnd(true, true));
    var found := Extend(c, starting, s, Upcheck(true, false, true));
    steps := Extend(c, found, s.(bcUp := false), StartsOk);
  }

  lemma StartBothProcesses(c: Config) returns (steps: seq<Step>)
    ensures After(c, steps) == Some(Node(StartupInprogress, Down, true, true, StartEnd(true, true)))
    ensures LoudChecks(c, steps) == 0
  {
    var probed := ProbeForStart(c);
    var s := Node(OK, Down, false, true, StartProbed);
    var steps1 := Extend(c, probed, s, BeginStart);
    var steps2 := Extend(c, steps1, s.(pc := StartPm, nodeStatus := StartupInprogress), PmStart(true));
    steps := Extend(c, steps2, s.(pc := StartBc(true), nodeStatus := StartupInprogress), BcStart(true));
  }

  lemma ProbeForStart(c: Config) returns (steps: seq<Step>)
    ensures After(c, steps) == Some(Node(OK, Down, false, true, StartProbed)) && LoudChecks(c, steps) == 0
  {
    var s := Init(c);
    assert After(c, []) == Some(s);
    var steps1 := Extend(c, [], s, EnterStart);
    var steps2 := Extend(c, steps1, s.(pc := StartEntry), StartNotUp);
    steps := Extend(c, steps2, s.(pc := StartProbing), StartForced(false, true));
  }

  lemma Extend(c: Config, steps: seq<Step>, s: Node, e: Step) returns (more: seq<Step>)
    requires After(c, steps) == Some(s) && Enabled(c, s, e)
    ensures After(c, more) == Some(Apply(c, s, e))
    ensures LoudChecks(c, more) == LoudChecks(c, steps) + if LandsInStart(s, e) then 1 else 0
  {
    AfterSnoc(c, steps, e);
    more := steps + [e];
    assert more[..|steps|] == steps;
  }

  /** Main result: the client status is coherent with the cached process statuses
      in all runs with at most so many upchecks inside starts -- if and only if
      that number is zero. */
  lemma CoherentIffStartsQuiet(c: Config, most: nat)
    ensures (forall steps: seq<Step> :: After(c, steps).Some? && LoudChecks(c, steps) <= most
               ==> var s := After(c, steps).value;
                   s.clientStatus.Up? && s.nodeStatus != ShutdownInprogress ==> s.bcUp && s.pmUp)
            <==> most == 0
  {
    if most == 0 {
      forall steps: seq<Step> | After(c, steps).Some? && LoudChecks(c, steps) == 0
        ensures Coherent(After(c, steps).value)
      {
        QuietRunsFit(c, steps);
      }
    } else {
      var steps := LoudStartBreaksCoherence(c);
    }
  }
}
