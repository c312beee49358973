/** The inactivity tracker and the resync timer of one hibernator. */
module Activity {
  import opened Basics
  import opened Core

  /** An event that the tracker consumes.  A tick carries what the controller
      would say if asked: whether it is busy, and whether the client is up. */
  datatype Event = Tick(busy: bool, up: bool) | Reset

  /** The ticks consumed since the last reset that was consumed. */
  function TicksSinceReset(events: seq<Event>): nat {
    if events == [] || events[|events| - 1].Reset? then 0
    else 1 + TicksSinceReset(events[..|events| - 1])
  }

  /** Event k makes the tracker request a stop: a tick that completes a whole
      number of inactivity periods since the last reset, at a node that is not
      busy and has its client up. */
  predicate RequestsStop(limit: nat, events: seq<Event>, k: nat)
    requires k < |events|
  {
    events[k].Tick? && !events[k].busy && events[k].up && TicksSinceReset(events[..k + 1]) % (limit + 1) == 0
  }

  datatype NodeStatusInfo = NodeStatusInfo(status: NodeStatus, inactiveTimeLimit: int, inactiveTime: int,
                                           timeToShutdown: int)

  class InactivityResyncMonitor {
    const inactivityTime: nat
    var inactiveTimeCount: int

    /** The count never leaves the range that the time left is computed from. */
    ghost predicate Valid()
      reads this
    {
      0 <= inactiveTimeCount <= inactivityTime
    }

    constructor (inactivityTime: nat)
      ensures Valid() && this.inactivityTime == inactivityTime && inactiveTimeCount == 0
    {
      this.inactivityTime, inactiveTimeCount := inactivityTime, 0;
    }

    method ResetInactivity()
      modifies this
      ensures Valid() && inactiveTimeCount == 0
    {
      inactiveTimeCount := 0;
    }

    /** The count starts anew whether or not a stop was requested. */
    method ProcessInactivity(busy: bool, up: bool) returns (requested: bool)
      modifies this
      ensures Valid() && inactiveTimeCount == 0 && (requested <==> !busy && up)
    {
      requested := false;
      if busy {
        ResetInactivity();
      } else {
        if up {
          requested := true;
        }
        ResetInactivity();
      }
    }

    /** After any events, in any order, the count is the ticks since the last
        reset, less the periods already completed; and stops were requested
        exactly at the events that complete a period. */
    method TrackInactivity(events: seq<Event>) returns (requests: seq<nat>)
      requires inactiveTimeCount == 0
      modifies this
      ensures Valid() && inactiveTimeCount == TicksSinceReset(events) % (inactivityTime + 1)
      ensures forall k :: k in requests <==> 0 <= k < |events| && RequestsStop(inactivityTime, events, k)
      ensures forall k :: k in requests <==>
                0 <= k < |events| && events[k].Tick? && !events[k].busy && events[k].up &&
                TicksSinceReset(events[..k + 1]) % (inactivityTime + 1) == 0
      ensures forall i, j :: 0 <= i < j < |requests| ==> requests[i] < requests[j]
    {
      requests := [];
      for i := 0 to |events|
        invariant inactiveTimeCount == TicksSinceReset(events[..i]) % (inactivityTime + 1)
        invariant forall k :: k in requests <==> 0 <= k < i && RequestsStop(inactivityTime, events, k)
        invariant forall a :: 0 <= a < |requests| ==> requests[a] < i
        invariant forall a, b :: 0 <= a < b < |requests| ==> requests[a] < requests[b]
      {
        assert events[..i + 1][..i] == events[..i];
        match events[i]
        case Tick(busy, up) =>
          NextTick(TicksSinceReset(events[..i]), inactivityTime);
          if inactiveTimeCount == inactivityTime {
            var requested := ProcessInactivity(busy, up);
            if requested {
              requests := requests + [i];
            }
          } else {
            inactiveTimeCount := inactiveTimeCount + 1;
          }
        case Reset =>
          ResetInactivity();
      }
      assert events[..|events|] == events;
    }

    /** The loop over the resync timer, along any run of it: at each value taken
        out of the timer's channel at a node that is not busy, the inactivity count
        starts anew and a start is requested.  Resync time zero switches it off. */
    method TrackResyncTimer(resyncTime: nat, steps: seq<TimerStep>) returns (starts: nat)
      requires Valid() && TimerAfter(steps).Some?
      modifies this
      ensures Valid() && inactiveTimeCount == if starts > 0 then 0 else old(inactiveTimeCount)
      ensures starts == if resyncTime == 0 then 0 else multiset(steps)[TakeFire(false)]
      ensures starts <= 1 + Resets(steps)
    {
      starts := 0;
      FiresNeedResets(steps);
      NumbersCounted(steps);
      if resyncTime == 0 {
        return;
      }
      var timer := Timer(true, false);
      for i := 0 to |steps|
        invariant TimerAfter(steps[..i]) == Some(timer) && starts == WakeUps(steps[..i])
        invariant Valid() && inactiveTimeCount == if starts > 0 then 0 else old(inactiveTimeCount)
      {
        PrefixRuns(steps, i + 1);
        assert steps[..i + 1][..i] == steps[..i];
        match steps[i]
        case Expire =>
          timer := Timer(false, true);
        case TakeFire(busy) =>
          timer := timer.(expired := false);
          if !busy {
            ResetInactivity();
            starts := starts + 1;
          }
        case TakeReset =>
          timer := timer.(armed := true);
      }
      assert steps[..|steps|] == steps;
    }

    /** What peers are told; the time left is never negative. */
    function NodeStatus(status: NodeStatus): (info: NodeStatusInfo)
      requires Valid()
      reads this
      ensures info.status == status && info.inactiveTime == inactiveTimeCount
      ensures info.timeToShutdown + info.inactiveTime == info.inactiveTimeLimit == inactivityTime
      ensures 0 <= info.timeToShutdown <= info.inactiveTimeLimit
      ensures info.timeToShutdown == info.inactiveTimeLimit <==> inactiveTimeCount == 0
    {
      NodeStatusInfo(status, inactivityTime, inactiveTimeCount, inactivityTime - inactiveTimeCount)
    }
  }

  /** Counting modulo limit + 1, one tick at a time. */
  lemma NextTick(t: nat, limit: nat)
    ensures (t + 1) % (limit + 1) == if t % (limit + 1) == limit then 0 else t % (limit + 1) + 1
  {
    var n := limit + 1;
    var q, r := t / n, t % n;
    if r == limit {
      assert t + 1 == (q + 1) * n;
      Remainder(t + 1, n, q + 1, 0);
    } else {
      Remainder(t + 1, n, q, r + 1);
    }
  }

  lemma Remainder(x: nat, n: nat, q: nat, r: nat)
    requires n > 0 && x == q * n + r && r < n
    ensures x % n == r
  {
    var d, m := x / n, x % n;
    assert x == n * d + m && x == n * q + r;
    if d > q {
      MulMonotone(n, q + 1, d);
    } else if d < q {
      MulMonotone(n, d + 1, q);
    }
  }

  /** A stop is requested only after limit + 1 ticks in a row without a reset. */
  lemma StopNeedsFullPeriod(limit: nat, events: seq<Event>, k: nat)
    requires k < |events| && RequestsStop(limit, events, k)
    ensures k >= limit
    ensures forall j :: k - limit <= j <= k ==> events[j].Tick?
  {
    var t := TicksSinceReset(events[..k + 1]);
    if t <= limit {
      Remainder(t, limit + 1, 0, t);
      assert false;
    }
    RecentAreTicks(events[..k + 1]);
  }

  /** The events since the last reset are ticks, and the one before them is a reset. */
  lemma {:induction false} RecentAreTicks(events: seq<Event>)
    ensures TicksSinceReset(events) <= |events|
    ensures forall j :: |events| - TicksSinceReset(events) <= j < |events| ==> events[j].Tick?
    ensures TicksSinceReset(events) < |events| ==> events[|events| - 1 - TicksSinceReset(events)].Reset?
    decreases |events|
  {
    if events != [] && events[|events| - 1].Tick? {
      RecentAreTicks(events[..|events| - 1]);
    }
  }

  // ---- The resync timer ----------------------------------------------------

  /** A timer of the Go library: armed, and with a value in its channel, which
      holds one.  Arming it again leaves a value that is already there. */
  datatype Timer = Timer(armed: bool, expired: bool)

  /** The timer runs out by itself; the tracker takes the value out of the
      timer's channel, at a node that is busy or not, or a reset, which arms it. */
  datatype TimerStep = Expire | TakeFire(busy: bool) | TakeReset

  predicate CanHappen(t: Timer, e: TimerStep) {
    match e case Expire => t.armed case TakeFire(_) => t.expired case TakeReset => true
  }

  function NextTimer(t: Timer, e: TimerStep): Timer {
    match e
    case Expire => Timer(false, true)
    case TakeFire(_) => t.(expired := false)
    case TakeReset => t.(armed := true)
  }

  /** The timer after a run of steps; None if some step could not happen. */
  function TimerAfter(steps: seq<TimerStep>): Option<Timer>
    decreases |steps|
  {
    if steps == [] then Some(Timer(true, false)) else
      match TimerAfter(steps[..|steps| - 1])
      case None => None
      case Some(t) =>
        if CanHappen(t, steps[|steps| - 1]) then Some(NextTimer(t, steps[|steps| - 1])) else None
  }

  lemma {:induction false} PrefixRuns(steps: seq<TimerStep>, k: nat)
    requires TimerAfter(steps).Some? && k <= |steps|
    ensures TimerAfter(steps[..k]).Some?
    decreases |steps|
  {
    if k < |steps| {
      PrefixRuns(steps[..|steps| - 1], k);
      assert steps[..|steps| - 1][..k] == steps[..k];
    } else {
      assert steps[..k] == steps;
    }
  }

  lemma TimerSnoc(steps: seq<TimerStep>, e: TimerStep)
    requires TimerAfter(steps).Some? && CanHappen(TimerAfter(steps).value, e)
    ensures TimerAfter(steps + [e]) == Some(NextTimer(TimerAfter(steps).value, e))
    ensures Consumed(steps + [e]) == Consumed(steps) + if e.Expire? then [] else [e]
  {
    assert (steps + [e])[..|steps|] == steps;
  }

  /** The timer, read off the run: armed since the start or a reset unless it ran out
      since; with a value in its channel since it ran out unless that was taken. */
  lemma {:induction false} TimerFromSteps(steps: seq<TimerStep>)
    requires TimerAfter(steps).Some?
    ensures TimerAfter(steps).value.armed <==>
            Expire !in steps || Since(steps, (e: TimerStep) => e.TakeReset?, (e: TimerStep) => e.Expire?)
    ensures TimerAfter(steps).value.expired <==>
            Since(steps, (e: TimerStep) => e.Expire?, (e: TimerStep) => e.TakeFire?)
    decreases |steps|
  {
    if steps != [] {
      var front, last := steps[..|steps| - 1], steps[|steps| - 1];
      TimerFromSteps(front);
      assert steps == front + [last];
      SinceSnoc(steps, (e: TimerStep) => e.TakeReset?, (e: TimerStep) => e.Expire?);
      SinceSnoc(steps, (e: TimerStep) => e.Expire?, (e: TimerStep) => e.TakeFire?);
    }
  }

  /** The next step is possible exactly if the timer is armed, for running out, or
      has a value in its channel, for firing; a reset always is. */
  lemma TimerGoesOn(steps: seq<TimerStep>, e: TimerStep)
    requires TimerAfter(steps).Some?
    ensures TimerAfter(steps + [e]).Some? <==>
            match e
            case Expire => TimerAfter(steps).value.armed
            case TakeFire(_) => TimerAfter(steps).value.expired
            case TakeReset => true
  {
    assert (steps + [e])[..|steps|] == steps;
  }

  function WakeUps(steps: seq<TimerStep>): nat {
    if steps == [] then 0
    else WakeUps(steps[..|steps| - 1]) + if steps[|steps| - 1] == TakeFire(false) then 1 else 0
  }

  function Fires(steps: seq<TimerStep>): nat {
    if steps == [] then 0
    else Fires(steps[..|steps| - 1]) + if steps[|steps| - 1].TakeFire? then 1 else 0
  }

  function Resets(steps: seq<TimerStep>): nat {
    if steps == [] then 0
    else Resets(steps[..|steps| - 1]) + if steps[|steps| - 1].TakeReset? then 1 else 0
  }

  /** The three numbers, counted directly. */
  lemma {:induction false} NumbersCounted(steps: seq<TimerStep>)
    ensures WakeUps(steps) == multiset(steps)[TakeFire(false)]
    ensures Fires(steps) == multiset(steps)[TakeFire(false)] + multiset(steps)[TakeFire(true)]
    ensures Resets(steps) == multiset(steps)[TakeReset]
    decreases |steps|
  {
    if steps != [] {
      var front, last := steps[..|steps| - 1], steps[|steps| - 1];
      NumbersCounted(front);
      assert steps == front + [last];
    }
  }

  /** How often the timer can still fire if nothing arms it. */
  function Credit(t: Timer): nat {
    (if t.armed then 1 else 0) + if t.expired then 1 else 0
  }

  /** In every run, beyond the first time, each firing is paid for by a reset. */
  lemma {:induction false} FiresNeedResets(steps: seq<TimerStep>)
    requires TimerAfter(steps).Some?
    ensures WakeUps(steps) <= Fires(steps)
    ensures Fires(steps) + Credit(TimerAfter(steps).value) <= 1 + Resets(steps)
    decreases |steps|
  {
    if steps != [] {
      FiresNeedResets(steps[..|steps| - 1]);
    }
  }

  /** Without resets only what is left of the credit can fire. */
  lemma {:induction false} CreditBoundsFires(steps: seq<TimerStep>, more: seq<TimerStep>)
    requires TimerAfter(steps).Some? && TimerAfter(steps + more).Some? && TakeReset !in more
    ensures Fires(steps + more) + Credit(TimerAfter(steps + more).value) <= Fires(steps) +
              Credit(TimerAfter(steps).value)
    ensures (exists busy :: TakeFire(busy) in more) ==> Fires(steps + more) > Fires(steps)
    ensures Fires(steps + more) >= Fires(steps)
    decreases |more|
  {
    if more == [] {
      assert steps + more == steps;
    } else {
      var n := |more| - 1;
      assert (steps + more)[..|steps + more| - 1] == steps + more[..n];
      CreditBoundsFires(steps, more[..n]);
      assert more == more[..n] + [more[n]];
    }
  }

  /** Main result: in every reachable state the node can be woken up without
      another reset if and only if the timer is armed or a value is waiting. */
  lemma WakesAgainIffPrimed(steps: seq<TimerStep>)
    requires TimerAfter(steps).Some?
    ensures (exists more :: TimerAfter(steps + more).Some? && TakeReset !in more && TakeFire(false) in more)
            <==> TimerAfter(steps).value.armed || TimerAfter(steps).value.expired
  {
    var t := TimerAfter(steps).value;
    if t.expired {
      TimerSnoc(steps, TakeFire(false));
      assert TakeFire(false) in [TakeFire(false)];
    } else if t.armed {
      TimerSnoc(steps, Expire);
      TimerSnoc(steps + [Expire], TakeFire(false));
      var more := [Expire, TakeFire(false)];
      assert steps + more == steps + [Expire] + [TakeFire(false)];
      assert TakeFire(false) in more;
    } else if more :| TimerAfter(steps + more).Some? && TakeReset !in more && TakeFire(false) in more {
      CreditBoundsFires(steps, more);
      assert false;
    }
  }

  /** The node that syncs regularly, against the code: the first firing is
      possible, and after it no run without a reset fires again. */
  lemma FiresOnce(more: seq<TimerStep>)
    ensures TimerAfter([Expire, TakeFire(false)]) == Some(Timer(false, false))
    ensures TimerAfter([Expire, TakeFire(false)] + more).Some? && TakeReset !in more ==>
              forall busy :: TakeFire(busy) !in more
  {
    var first := [Expire, TakeFire(false)];
    TimerSnoc([], Expire);
    TimerSnoc([Expire], TakeFire(false));
    assert [] + [Expire] == [Expire] && [Expire] + [TakeFire(false)] == first;
    if TimerAfter(first + more).Some? && TakeReset !in more {
      CreditBoundsFires(first, more);
    }
  }

  // ---- Which histories the tracker can see ---------------------------------

  /** What the tracker takes out of its channels, in order. */
  function Consumed(steps: seq<TimerStep>): seq<TimerStep> {
    if steps == [] then []
    else Consumed(steps[..|steps| - 1]) + if steps[|steps| - 1].Expire? then [] else [steps[|steps| - 1]]
  }

  /** Everything but running out, in order. */
  lemma {:induction false} ConsumedConcat(steps: seq<TimerStep>, more: seq<TimerStep>)
    ensures Consumed(steps + more) == Consumed(steps) + Consumed(more)
    decreases |more|
  {
    if more == [] {
      assert steps + more == steps;
    } else {
      var n := |more| - 1;
      ConsumedConcat(steps, more[..n]);
      assert (steps + more)[..|steps + more| - 1] == steps + more[..n];
    }
  }

  lemma {:induction false} ConsumedKeepsTheRest(steps: seq<TimerStep>, e: TimerStep)
    ensures multiset(Consumed(steps))[e] == if e.Expire? then 0 else multiset(steps)[e]
    decreases |steps|
  {
    if steps != [] {
      var front, last := steps[..|steps| - 1], steps[|steps| - 1];
      ConsumedKeepsTheRest(front, e);
      assert steps == front + [last];
    }
  }

  /** The credit a history leaves at best: one at the start and one for each
      reset, but never more than two; None if it fires without credit. */
  function BestCredit(history: seq<TimerStep>): Option<nat> {
    if history == [] then Some(1) else
      var c, last := BestCredit(history[..|history| - 1]), history[|history| - 1];
      if c.None? || last.Expire? then None
      else if last.TakeReset? then Some(if c.value < 2 then c.value + 1 else 2)
      else if c.value > 0 then Some(c.value - 1) else None
  }

  /** Main result: the histories of firings and resets that some run shows are
      exactly those in which every firing has credit left. */
  lemma SeenIffPaidFor(history: seq<TimerStep>)
    ensures (exists steps :: TimerAfter(steps).Some? && Consumed(steps) == history) <==> BestCredit(history).Some?
  {
    if BestCredit(history).Some? {
      var steps := ShowHistory(history);
    }
    if steps :| TimerAfter(steps).Some? && Consumed(steps) == history {
      RunsArePaidFor(steps);
    }
  }

  lemma {:induction false} RunsArePaidFor(steps: seq<TimerStep>)
    requires TimerAfter(steps).Some?
    ensures BestCredit(Consumed(steps)).Some? && Credit(TimerAfter(steps).value) <= BestCredit(Consumed(steps)).value
    decreases |steps|
  {
    if steps != [] {
      var front := steps[..|steps| - 1];
      RunsArePaidFor(front);
      assert Consumed(steps) != Consumed(front) ==> Consumed(steps)[..|Consumed(steps)| - 1] == Consumed(front);
    }
  }

  /** A run for a paid history: the timer runs out as early as it can. */
  lemma {:induction false} ShowHistory(history: seq<TimerStep>) returns (steps: seq<TimerStep>)
    requires BestCredit(history).Some?
    ensures TimerAfter(steps).Some? && Consumed(steps) == history
    ensures Credit(TimerAfter(steps).value) == BestCredit(history).value
    decreases |history|
  {
    steps := [];
    if history != [] {
      var n := |history| - 1;
      steps := ShowHistory(history[..n]);
      var t := TimerAfter(steps).value;
      if t.armed && !t.expired {
        TimerSnoc(steps, Expire);
        steps := steps + [Expire];
      }
      TimerSnoc(steps, history[n]);
      steps := steps + [history[n]];
      assert history == history[..n] + [history[n]];
    }
  }
}
