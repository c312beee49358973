/** The threads of one node hibernator and what they can block on: the inactivity
    tracker, which requests stops; the resync tracker, which requests starts; the
    node monitor, which serves both; and any number of request handlers.  All
    channels have capacity one. */
module Controller {
  import opened Basics

  /** A stop is requested by the inactivity tracker, a start by the resync tracker. */
  datatype Kind = Stop | Start

  datatype Requester = Selecting | Requesting | Waiting

  datatype Monitor = Idle | Locking(kind: Kind) | Working(kind: Kind) | Reporting(kind: Kind, ok: bool)

  /** A handler resets the inactivity tracker and then the resync tracker before
      it starts the client; the websocket handshake starts it right away. */
  datatype Handler = Resetting(kind: Kind) | Ready | WantsLock | Holding | Done

  /** One kind of request: its two channels, and the history of requests, of the
      results that the monitor came to, and of those that the requester got. */
  datatype Link = Link(request: bool, complete: Option<bool>, asked: nat, answers: seq<bool>, got: seq<bool>)

  datatype Owner = NoOne | ByMonitor | ByHandler(h: nat)

  datatype Config = Config(resyncSet: bool)

  /** reset[k] tells whether the reset channel of that tracker is full. */
  datatype State = State(
    requesters: map<Kind, Requester>,
    links: map<Kind, Link>,
    reset: map<Kind, bool>,
    monitor: Monitor,
    handlers: map<nat, Handler>,
    mutex: Owner)

  datatype Thread = Tracker(kind: Kind) | TheMonitor | TheHandler(h: nat)

  datatype Step =
    | Decide(kind: Kind)        // a tracker decides to make a request
    | TakeReset(kind: Kind)
    | Request(kind: Kind)
    | TakeAnswer(kind: Kind)
    | Serve(kind: Kind)         // the monitor takes a request
    | Lock
    | Finish(kind: Kind, ok: bool)   // StopClient or StartClient returns
    | Report
    | Spawn(h: nat, handshake: bool)
    | SendReset(h: nat, kind: Kind)
    | GoOn(h: nat)
    | TurnAway(h: nat)
    | Acquire(h: nat)
    | Release(h: nat)

  function ThreadOf(s: State, e: Step): Option<Thread> {
    match e
    case Decide(k) => Some(Tracker(k))
    case TakeReset(k) => Some(Tracker(k))
    case Request(k) => Some(Tracker(k))
    case TakeAnswer(k) => Some(Tracker(k))
    case Serve(_) => Some(TheMonitor)
    case Lock => Some(TheMonitor)
    case Finish(_, _) => Some(TheMonitor)
    case Report => Some(TheMonitor)
    case Spawn(_, _) => None
    case SendReset(h, _) => Some(TheHandler(h))
    case GoOn(h) => Some(TheHandler(h))
    case TurnAway(h) => Some(TheHandler(h))
    case Acquire(h) => Some(TheHandler(h))
    case Release(h) => Some(TheHandler(h))
  }

  /** The three maps cover both kinds. */
  predicate WellTyped(s: State) {
    && (forall k: Kind :: k in s.requesters)
    && (forall k: Kind :: k in s.links)
    && (forall k: Kind :: k in s.reset)
  }

  /** Without a resync time there is no resync tracker. */
  predicate Runs(c: Config, kind: Kind) {
    kind == Stop || c.resyncSet
  }

  predicate Enabled(c: Config, s: State, e: Step)
    requires WellTyped(s)
  {
    match e
    case Decide(k) => Runs(c, k) && s.requesters[k].Selecting?
    case TakeReset(k) => Runs(c, k) && s.requesters[k].Selecting? && s.reset[k]
    case Request(k) => s.requesters[k].Requesting? && !s.links[k].request
    case TakeAnswer(k) => s.requesters[k].Waiting? && s.links[k].complete.Some?
    case Serve(k) => s.monitor.Idle? && s.links[k].request
    case Lock => s.monitor.Locking? && s.mutex.NoOne?
    case Finish(k, _) => s.monitor == Working(k)
    case Report => s.monitor.Reporting? && s.links[s.monitor.kind].complete.None?
    case Spawn(h, _) => h !in s.handlers
    case SendReset(h, k) => h in s.handlers && s.handlers[h] == Resetting(k) && !s.reset[k]
    case GoOn(h) => h in s.handlers && s.handlers[h].Ready?
    case TurnAway(h) => h in s.handlers && s.handlers[h].Ready?
    case Acquire(h) => h in s.handlers && s.handlers[h].WantsLock? && s.mutex.NoOne?
    case Release(h) => h in s.handlers && s.handlers[h].Holding?
  }

  function Apply(c: Config, s: State, e: Step): (t: State)
    requires WellTyped(s) && Enabled(c, s, e)
    ensures WellTyped(t)
  {
    match e
    case Decide(k) => s.(requesters := s.requesters[k := Requesting])
    case TakeReset(k) => s.(reset := s.reset[k := false])
    case Request(k) =>
      s.(requesters := s.requesters[k := Waiting],
         links := s.links[k := s.links[k].(request := true, asked := s.links[k].asked + 1)])
    case TakeAnswer(k) =>
      s.(requesters := s.requesters[k := Selecting],
         links := s.links[k := s.links[k].(complete := None, got := s.links[k].got + [s.links[k].complete.value])])
    case Serve(k) => s.(monitor := Locking(k), links := s.links[k := s.links[k].(request := false)])
    case Lock => s.(monitor := Working(s.monitor.kind), mutex := ByMonitor)
    case Finish(k, ok) =>
      s.(monitor := Reporting(k, ok), mutex := NoOne,
         links := s.links[k := s.links[k].(answers := s.links[k].answers + [ok])])
    case Report =>
      var k := s.monitor.kind;
      s.(monitor := Idle, links := s.links[k := s.links[k].(complete := Some(s.monitor.ok))])
    case Spawn(h, handshake) => s.(handlers := s.handlers[h := if handshake then WantsLock else Resetting(Stop)])
    case SendReset(h, k) =>
      s.(reset := s.reset[k := true],
         handlers := s.handlers[h := if k == Stop && c.resyncSet then Resetting(Start) else Ready])
    case GoOn(h) => s.(handlers := s.handlers[h := WantsLock])
    case TurnAway(h) => s.(handlers := s.handlers[h := Done])
    case Acquire(h) => s.(handlers := s.handlers[h := Holding], mutex := ByHandler(h))
    case Release(h) => s.(handlers := s.handlers[h := Done], mutex := NoOne)
  }

  /** The monitor serves requests of both kinds. */
  predicate Served(k: Kind) {
    k.Stop? || k.Start?
  }

  function Init(): (s: State)
    ensures WellTyped(s)
  {
    var link := Link(false, None, 0, [], []);
    State(map k: Kind | Served(k) :: Selecting, map k: Kind | Served(k) :: link, map k: Kind | Served(k) :: false,
              Idle, map[], NoOne)
  }

  /** The state a run of steps leads to; None if some step could not happen. */
  ghost function After(c: Config, steps: seq<Step>): (r: Option<State>)
    ensures r.Some? ==> WellTyped(r.value)
    decreases |steps|
  {
    if steps == [] then Some(Init()) else
      match After(c, steps[..|steps| - 1])
      case None => None
      case Some(s) =>
        if Enabled(c, s, steps[|steps| - 1]) then Some(Apply(c, s, steps[|steps| - 1])) else None
  }

  // ---- The invariant -------------------------------------------------------

  /** The monitor is at work on a request of this kind. */
  predicate Serving(s: State, k: Kind) {
    !s.monitor.Idle? && s.monitor.kind == k
  }

  /** One kind of request: nothing is under way unless the requester waits, and
      then exactly one thing is. */
  predicate LinkFits(c: Config, s: State, k: Kind)
    requires WellTyped(s)
  {
    var l, r := s.links[k], s.requesters[k];
    && (!Runs(c, k) ==> r.Selecting?)
    && (!r.Waiting? ==> !l.request && l.complete.None? && !Serving(s, k) && l.got == l.answers && l.asked == |l.got|)
    && (r.Waiting? ==>
          && l.asked == |l.got| + 1
          && (l.request ==> l.complete.None? && !Serving(s, k))
          && (l.complete.Some? ==> !Serving(s, k))
          && (l.request || l.complete.Some? || Serving(s, k))
          && (if l.complete.Some? then l.answers == l.got + [l.complete.value]
              else if Serving(s, k) && s.monitor.Reporting? then l.answers == l.got + [s.monitor.ok]
              else l.answers == l.got))
  }

  ghost predicate MutexFits(s: State) {
    && (s.mutex.ByMonitor? <==> s.monitor.Working?)
    && (forall h :: (h in s.handlers && s.handlers[h].Holding?) <==> s.mutex == ByHandler(h))
  }

  predicate HandlersFit(c: Config, s: State) {
    forall h :: h in s.handlers && s.handlers[h].Resetting? ==> Runs(c, s.handlers[h].kind)
  }

  ghost predicate Inv(c: Config, s: State) {
    WellTyped(s) && (forall k: Kind :: LinkFits(c, s, k)) && MutexFits(s) && HandlersFit(c, s)
  }

  lemma LinkIsKept(c: Config, s: State, e: Step, k: Kind)
    requires Inv(c, s) && Enabled(c, s, e)
    ensures LinkFits(c, Apply(c, s, e), k)
  {
    assert LinkFits(c, s, k);
  }

  lemma InvIsKept(c: Config, s: State, e: Step)
    requires Inv(c, s) && Enabled(c, s, e)
    ensures Inv(c, Apply(c, s, e))
  {
    forall k: Kind ensures LinkFits(c, Apply(c, s, e), k) {
      LinkIsKept(c, s, e, k);
    }
  }

  lemma {:induction false} RunsKeepInv(c: Config, steps: seq<Step>)
    requires After(c, steps).Some?
    ensures Inv(c, After(c, steps).value)
    decreases |steps|
  {
    if steps != [] {
      var n := |steps| - 1;
      RunsKeepInv(c, steps[..n]);
      InvIsKept(c, After(c, steps[..n]).value, steps[n]);
    }
  }

  lemma Extend(c: Config, steps: seq<Step>, s: State, e: Step) returns (more: seq<Step>, t: State)
    requires After(c, steps) == Some(s) && Enabled(c, s, e)
    ensures more == steps + [e] && t == Apply(c, s, e) && After(c, more) == Some(t)
  {
    more, t := steps + [e], Apply(c, s, e);
    assert more[..|steps|] == steps;
  }

  lemma RequestIsTaken(c: Config, k: Kind) returns (steps: seq<Step>, s: State)
    requires k == Stop || c.resyncSet
    ensures steps == [Decide(k), Request(k), Serve(k), Lock]
    ensures After(c, steps) == Some(s) && s.monitor == Working(k) && s.requesters[k].Waiting?
    ensures s.links[k] == Link(false, None, 1, [], [])
  {
    s := Init();
    steps, s := Extend(c, [], s, Decide(k));
    steps, s := Extend(c, steps, s, Request(k));
    steps, s := Extend(c, steps, s, Serve(k));
    steps, s := Extend(c, steps, s, Lock);
  }

  /** A request of either kind goes all the way: the tracker gets the result. */
  lemma RequestIsServed(c: Config, k: Kind, ok: bool) returns (steps: seq<Step>)
    requires k == Stop || c.resyncSet
    ensures steps == [Decide(k), Request(k), Serve(k), Lock, Finish(k, ok), Report, TakeAnswer(k)]
    ensures After(c, steps).Some? && After(c, steps).value.links[k].got == [ok]
  {
    var s;
    steps, s := RequestIsTaken(c, k);
    steps, s := Extend(c, steps, s, Finish(k, ok));
    steps, s := Extend(c, steps, s, Report);
    steps, s := Extend(c, steps, s, TakeAnswer(k));
  }

  lemma HandlerResets(c: Config, h: nat) returns (steps: seq<Step>, s: State)
    ensures steps == [Spawn(h, false), SendReset(h, Stop)] + if c.resyncSet then [SendReset(h, Start)] else []
    ensures After(c, steps) == Some(s) && s.handlers == map[h := Ready] && s.mutex.NoOne?
  {
    s := Init();
    steps, s := Extend(c, [], s, Spawn(h, false));
    steps, s := Extend(c, steps, s, SendReset(h, Stop));
    if c.resyncSet {
      steps, s := Extend(c, steps, s, SendReset(h, Start));
    }
  }

  /** A handler resets the trackers and goes on to start the client. */
  lemma HandlerIsServed(c: Config, h: nat) returns (steps: seq<Step>)
    ensures steps == [Spawn(h, false), SendReset(h, Stop)] + (if c.resyncSet then [SendReset(h, Start)] else []) +
                     [GoOn(h), Acquire(h), Release(h)]
    ensures After(c, steps).Some? && After(c, steps).value.handlers == map[h := Done]
  {
    var s;
    steps, s := HandlerResets(c, h);
    steps, s := Extend(c, steps, s, GoOn(h));
    steps, s := Extend(c, steps, s, Acquire(h));
    steps, s := Extend(c, steps, s, Release(h));
  }

  /** Or it is turned away, because the node is busy or starts in the background. */
  lemma HandlerIsTurnedAway(c: Config, h: nat) returns (steps: seq<Step>)
    ensures steps == [Spawn(h, false), SendReset(h, Stop)] + (if c.resyncSet then [SendReset(h, Start)] else []) +
                     [TurnAway(h)]
    ensures After(c, steps).Some? && After(c, steps).value.handlers == map[h := Done]
  {
    var s;
    steps, s := HandlerResets(c, h);
    steps, s := Extend(c, steps, s, TurnAway(h));
  }

  // ---- Requests and answers ------------------------------------------------

  /** Main result: in every run, at most one request of each kind is under way,
      and the n-th wait gets the result of the n-th request. */
  lemma AnswersArePaired(c: Config, steps: seq<Step>, k: Kind)
    requires After(c, steps).Some?
    ensures var l := After(c, steps).value.links[k];
            && l.got <= l.answers
            && |l.got| <= |l.answers| <= l.asked <= |l.got| + 1
            && (After(c, steps).value.requesters[k].Waiting? <==> l.asked == |l.got| + 1)
  {
    RunsKeepInv(c, steps);
    assert LinkFits(c, After(c, steps).value, k);
  }

  /** Neither a request nor the report of a result ever finds its channel full. */
  lemma SendsNeverBlock(c: Config, steps: seq<Step>)
    requires After(c, steps).Some?
    ensures var s := After(c, steps).value;
            && (forall k :: s.requesters[k].Requesting? ==> Enabled(c, s, Request(k)))
            && (s.monitor.Reporting? ==> Enabled(c, s, Report))
  {
    RunsKeepInv(c, steps);
    var s := After(c, steps).value;
    forall k | s.requesters[k].Requesting? ensures Enabled(c, s, Request(k)) {
      assert LinkFits(c, s, k);
    }
    if s.monitor.Reporting? {
      assert LinkFits(c, s, s.monitor.kind);
    }
  }

  // ---- The state, read off the run -----------------------------------------

  /** The results of the stops or starts that the monitor came to, in order. */
  function Results(steps: seq<Step>, k: Kind): seq<bool> {
    if steps == [] then [] else
      var last := steps[|steps| - 1];
      Results(steps[..|steps| - 1], k) + if last.Finish? && last.kind == k then [last.ok] else []
  }

  lemma LinkStep(c: Config, s: State, e: Step, k: Kind)
    requires WellTyped(s) && Enabled(c, s, e)
    ensures var l, l' := s.links[k], Apply(c, s, e).links[k];
            && l'.asked == l.asked + (if e == Request(k) then 1 else 0)
            && |l'.got| == |l.got| + (if e == TakeAnswer(k) then 1 else 0)
            && l'.answers == l.answers + (if e.Finish? && e.kind == k then [e.ok] else [])
    ensures Apply(c, s, e).reset[k] <==> (e.SendReset? && e.kind == k) || (s.reset[k] && e != TakeReset(k))
    ensures Apply(c, s, e).monitor.Idle? <==> e.Report? || (s.monitor.Idle? && !e.Serve?)
  {
  }

  /** As many waits as requests and as many answers got as taken; the results are
      those that the stops and starts returned. */
  lemma {:induction false} LinksFromSteps(c: Config, steps: seq<Step>, k: Kind)
    requires After(c, steps).Some?
    ensures var l := After(c, steps).value.links[k];
            && l.asked == multiset(steps)[Request(k)]
            && |l.got| == multiset(steps)[TakeAnswer(k)]
            && l.answers == Results(steps, k)
    decreases |steps|
  {
    if steps != [] {
      var front, last := steps[..|steps| - 1], steps[|steps| - 1];
      assert steps == front + [last];
      LinksFromSteps(c, front, k);
      LinkStep(c, After(c, front).value, last, k);
    }
  }

  /** A reset channel is full exactly if a reset was sent and not taken since, and the
      monitor is at work exactly if it took a request and has not reported since. */
  lemma {:induction false} ChannelsFromSteps(c: Config, steps: seq<Step>, k: Kind)
    requires After(c, steps).Some?
    ensures After(c, steps).value.reset[k] <==>
            Since(steps, (e: Step) => e.SendReset? && e.kind == k, (e: Step) => e == TakeReset(k))
    ensures !After(c, steps).value.monitor.Idle? <==>
            Since(steps, (e: Step) => e.Serve?, (e: Step) => e.Report?)
    decreases |steps|
  {
    if steps != [] {
      var front, last := steps[..|steps| - 1], steps[|steps| - 1];
      ChannelsFromSteps(c, front, k);
      LinkStep(c, After(c, front).value, last, k);
      SinceSnoc(steps, (e: Step) => e.SendReset? && e.kind == k, (e: Step) => e == TakeReset(k));
      SinceSnoc(steps, (e: Step) => e.Serve?, (e: Step) => e.Report?);
    }
  }

  /** What handler h has done when it is at this point. */
  ghost predicate HandlerDid(c: Config, steps: seq<Step>, h: nat, at: Handler) {
    && (Spawn(h, true) in steps || Spawn(h, false) in steps)
    && !(Spawn(h, true) in steps && Spawn(h, false) in steps)
    && (Spawn(h, true) in steps ==>
          !at.Resetting? && !at.Ready? && SendReset(h, Stop) !in steps && SendReset(h, Start) !in steps)
    && (at == Resetting(Stop) ==> SendReset(h, Stop) !in steps && SendReset(h, Start) !in steps)
    && (at == Resetting(Start) ==> c.resyncSet && SendReset(h, Stop) in steps && SendReset(h, Start) !in steps)
    && (!at.Resetting? && Spawn(h, false) in steps ==>
          SendReset(h, Stop) in steps && (c.resyncSet <==> SendReset(h, Start) in steps))
    && (Acquire(h) in steps ==> at.Holding? || at.Done?)
  }

  /** Handler h is not there yet, or is where its steps have taken it. */
  ghost predicate HandlerFits(c: Config, steps: seq<Step>, s: State, h: nat) {
    if h in s.handlers then HandlerDid(c, steps, h, s.handlers[h])
    else forall e :: e in steps ==>
           e != Spawn(h, true) && e != Spawn(h, false) && e != Acquire(h) && !(e.SendReset? && e.h == h)
  }

  lemma HandlerStep(c: Config, front: seq<Step>, s: State, e: Step, h: nat)
    requires WellTyped(s) && Enabled(c, s, e) && HandlerFits(c, front, s, h)
    ensures HandlerFits(c, front + [e], Apply(c, s, e), h)
  {
    assert forall x :: x in front + [e] <==> x in front || x == e;
    if e.Spawn? || e.SendReset? || e.GoOn? || e.TurnAway? || e.Acquire? || e.Release? {
      OwnStep(c, front, s, e, h);
    } else {
      assert Apply(c, s, e).handlers == s.handlers;
    }
  }

  lemma OwnStep(c: Config, front: seq<Step>, s: State, e: Step, h: nat)
    requires WellTyped(s) && Enabled(c, s, e) && HandlerFits(c, front, s, h)
    requires e.Spawn? || e.SendReset? || e.GoOn? || e.TurnAway? || e.Acquire? || e.Release?
    ensures HandlerFits(c, front + [e], Apply(c, s, e), h)
  {
    assert forall x :: x in front + [e] <==> x in front || x == e;
    if e.h != h {
      var t := Apply(c, s, e);
      assert (h in t.handlers <==> h in s.handlers) && (h in s.handlers ==> t.handlers[h] == s.handlers[h]);
    }
  }

  lemma {:induction false} HandlersDid(c: Config, steps: seq<Step>, h: nat)
    requires After(c, steps).Some?
    ensures HandlerFits(c, steps, After(c, steps).value, h)
    decreases |steps|
  {
    if steps != [] {
      var front, last := steps[..|steps| - 1], steps[|steps| - 1];
      assert steps == front + [last];
      HandlersDid(c, front, h);
      HandlerStep(c, front, After(c, front).value, last, h);
    }
  }

  /** Main result: in every run a handler gets to start the client only after it reset
      the inactivity tracker, and the resync tracker if there is one -- except for the
      websocket handshake, which resets neither. */
  lemma HandlersResetFirst(c: Config, steps: seq<Step>, h: nat)
    requires After(c, steps).Some? && Acquire(h) in steps
    ensures Spawn(h, false) in steps ==>
              SendReset(h, Stop) in steps && (c.resyncSet <==> SendReset(h, Start) in steps)
    ensures Spawn(h, true) in steps ==> SendReset(h, Stop) !in steps && SendReset(h, Start) !in steps
    ensures Spawn(h, false) in steps <==> Spawn(h, true) !in steps
  {
    HandlersDid(c, steps, h);
  }

  /** The mutex keeps stops and starts apart: the monitor and the handlers never run
      one at the same time, nor do two handlers. */
  lemma MutexExcludes(c: Config, steps: seq<Step>, h: nat, i: nat)
    requires After(c, steps).Some?
    ensures var s := After(c, steps).value;
            h in s.handlers && s.handlers[h].Holding? ==>
              && !s.monitor.Working?
              && (i in s.handlers && s.handlers[i].Holding? ==> i == h)
  {
    RunsKeepInv(c, steps);
  }

  // ---- Deadlock freedom ----------------------------------------------------

  /** t can do nothing before u has done something. */
  predicate WaitsFor(s: State, t: Thread, u: Thread)
    requires WellTyped(s)
  {
    match t
    case Tracker(k) =>
      u == TheMonitor && ((s.requesters[k].Requesting? && s.links[k].request) ||
                          (s.requesters[k].Waiting? && s.links[k].complete.None?))
    case TheMonitor =>
      || (s.monitor.Locking? && !s.mutex.NoOne? && u == OwnerThread(s.mutex))
      || (s.monitor.Reporting? && s.links[s.monitor.kind].complete.Some? && u == Tracker(s.monitor.kind))
    case TheHandler(h) =>
      h in s.handlers &&
      match s.handlers[h]
      case Resetting(k) => s.reset[k] && u == Tracker(k)
      case WantsLock => !s.mutex.NoOne? && u == OwnerThread(s.mutex)
      case _ => false
  }

  function OwnerThread(o: Owner): Thread
    requires !o.NoOne?
  {
    if o.ByMonitor? then TheMonitor else TheHandler(o.h)
  }

  /** Handlers wait for trackers, trackers for the monitor, and everybody for
      the handler that holds the mutex. */
  function Rank(s: State, t: Thread): nat {
    match t
    case Tracker(_) => 1
    case TheMonitor => 2
    case TheHandler(h) => if h in s.handlers && s.handlers[h].Holding? then 3 else 0
  }

  /** Main result: in every reachable state waiting goes up in rank, so the
      wait-for relation has no cycle and no chain of more than three edges. */
  lemma WaitingIsAcyclic(c: Config, steps: seq<Step>, t: Thread, u: Thread)
    requires After(c, steps).Some? && WaitsFor(After(c, steps).value, t, u)
    ensures Rank(After(c, steps).value, t) < Rank(After(c, steps).value, u) <= 3
  {
    RunsKeepInv(c, steps);
    RankGrows(c, After(c, steps).value, t, u);
  }

  lemma RankGrows(c: Config, s: State, t: Thread, u: Thread)
    requires Inv(c, s) && WaitsFor(s, t, u)
    ensures Rank(s, t) < Rank(s, u) <= 3
  {
    if s.monitor.Reporting? {
      assert LinkFits(c, s, s.monitor.kind);
    }
  }

  /** t has a step to take. */
  ghost predicate CanStep(c: Config, s: State, t: Thread)
    requires WellTyped(s)
  {
    exists e: Step :: Enabled(c, s, e) && ThreadOf(s, e) == Some(t)
  }

  /** A thread that somebody waits for either waits itself or can take a step. */
  lemma AwaitedCanStep(c: Config, s: State, t: Thread, u: Thread)
    requires Inv(c, s) && WaitsFor(s, t, u) && forall v :: !WaitsFor(s, u, v)
    ensures CanStep(c, s, u)
  {
    match u
    case Tracker(k) => AwaitedTrackerCanStep(c, s, t, k);
    case TheMonitor => AwaitedMonitorCanStep(c, s, t);
    case TheHandler(h) => assert Enabled(c, s, Release(h)) && ThreadOf(s, Release(h)) == Some(u);
  }

  lemma AwaitedTrackerCanStep(c: Config, s: State, t: Thread, k: Kind)
    requires Inv(c, s) && WaitsFor(s, t, Tracker(k)) && forall v :: !WaitsFor(s, Tracker(k), v)
    ensures CanStep(c, s, Tracker(k))
  {
    assert LinkFits(c, s, k);
    assert !WaitsFor(s, Tracker(k), TheMonitor);
    var e := match s.requesters[k]
             case Selecting => TakeReset(k)
             case Requesting => Request(k)
             case Waiting => TakeAnswer(k);
    assert Enabled(c, s, e) && ThreadOf(s, e) == Some(Tracker(k));
  }

  lemma AwaitedMonitorCanStep(c: Config, s: State, t: Thread)
    requires Inv(c, s) && WaitsFor(s, t, TheMonitor) && forall v :: !WaitsFor(s, TheMonitor, v)
    ensures CanStep(c, s, TheMonitor)
  {
    assert s.monitor.Locking? && !s.mutex.NoOne? ==> WaitsFor(s, TheMonitor, OwnerThread(s.mutex));
    if s.monitor.Reporting? {
      assert LinkFits(c, s, s.monitor.kind);
    }
    if t.Tracker? {
      assert LinkFits(c, s, t.kind);
    }
    var e := match s.monitor
             case Idle => if t.Tracker? then Serve(t.kind) else Serve(Stop)
             case Locking(_) => Lock
             case Working(k) => Finish(k, true)
             case Reporting(_, _) => Report;
    assert Enabled(c, s, e) && ThreadOf(s, e) == Some(TheMonitor);
  }

  /** t is in the middle of something: a tracker between deciding on a request and
      its answer, the monitor serving, a handler not done. */
  predicate Active(c: Config, s: State, t: Thread)
    requires WellTyped(s)
  {
    match t
    case Tracker(k) => !s.requesters[k].Selecting?
    case TheMonitor => !s.monitor.Idle?
    case TheHandler(h) => h in s.handlers && !s.handlers[h].Done?
  }

  /** Waiting is the only thing that can keep an active thread from a step. */
  lemma ActiveStepsOrWaits(c: Config, s: State, t: Thread)
    requires Inv(c, s) && Active(c, s, t) && forall v :: !WaitsFor(s, t, v)
    ensures CanStep(c, s, t)
  {
    match t
    case Tracker(k) =>
      assert !WaitsFor(s, t, TheMonitor);
      var e := if s.requesters[k].Requesting? then Request(k) else TakeAnswer(k);
      assert Enabled(c, s, e) && ThreadOf(s, e) == Some(t);
    case TheMonitor =>
      assert s.monitor.Locking? && !s.mutex.NoOne? ==> WaitsFor(s, t, OwnerThread(s.mutex));
      assert LinkFits(c, s, s.monitor.kind);
      var e := if s.monitor.Locking? then Lock else if s.monitor.Working? then Finish(s.monitor.kind, true) else Report;
      assert Enabled(c, s, e) && ThreadOf(s, e) == Some(t);
    case TheHandler(h) =>
      HandlerStepsOrWaits(c, s, h);
  }

  lemma HandlerStepsOrWaits(c: Config, s: State, h: nat)
    requires Inv(c, s) && Active(c, s, TheHandler(h)) && forall v :: !WaitsFor(s, TheHandler(h), v)
    ensures CanStep(c, s, TheHandler(h))
  {
    var t := TheHandler(h);
    assert s.handlers[h].WantsLock? && !s.mutex.NoOne? ==> WaitsFor(s, t, OwnerThread(s.mutex));
    assert s.handlers[h].Resetting? && s.reset[s.handlers[h].kind] ==> WaitsFor(s, t, Tracker(s.handlers[h].kind));
    var e := match s.handlers[h]
             case Resetting(k) => SendReset(h, k)
             case Ready => GoOn(h)
             case WantsLock => Acquire(h)
             case _ => Release(h);
    assert Enabled(c, s, e) && ThreadOf(s, e) == Some(t);
  }

  /** Main result: in every reachable state, every active thread can take a step,
      or waits at the head of a chain whose last thread can: nothing is stuck. */
  lemma NobodyIsStuck(c: Config, steps: seq<Step>, t: Thread) returns (chain: seq<Thread>)
    requires After(c, steps).Some?
    requires match t
             case Tracker(k) => !After(c, steps).value.requesters[k].Selecting?
             case TheMonitor => !After(c, steps).value.monitor.Idle?
             case TheHandler(h) => h in After(c, steps).value.handlers && !After(c, steps).value.handlers[h].Done?
    ensures 1 <= |chain| <= 4 && chain[0] == t
    ensures forall i :: 0 <= i < |chain| - 1 ==> WaitsFor(After(c, steps).value, chain[i], chain[i + 1])
    ensures exists e: Step :: Enabled(c, After(c, steps).value, e) &&
                              ThreadOf(After(c, steps).value, e) == Some(chain[|chain| - 1])
  {
    RunsKeepInv(c, steps);
    var s := After(c, steps).value;
    if u :| WaitsFor(s, t, u) {
      chain := FollowChain(c, s, t, u);
    } else {
      ActiveStepsOrWaits(c, s, t);
      chain := [t];
    }
  }

  lemma {:induction false} FollowChain(c: Config, s: State, t: Thread, u: Thread) returns (chain: seq<Thread>)
    requires Inv(c, s) && WaitsFor(s, t, u)
    ensures 2 <= |chain| <= 4 - Rank(s, t) && chain[0] == t
    ensures forall i :: 0 <= i < |chain| - 1 ==> WaitsFor(s, chain[i], chain[i + 1])
    ensures CanStep(c, s, chain[|chain| - 1])
    decreases 3 - Rank(s, t)
  {
    RankGrows(c, s, t, u);
    if v :| WaitsFor(s, u, v) {
      var rest := FollowChain(c, s, u, v);
      chain := [t] + rest;
    } else {
      AwaitedCanStep(c, s, t, u);
      chain := [t, u];
    }
  }
}
