/** Scatter and gather: one sender per peer puts its reply into a channel of
    capacity one; a collector takes replies out and counts them to the expected
    number; the caller waits for all senders and then for the collector.  A
    reply is None when it carries an error. */
module Gather {
  import opened Basics

  datatype Sender = Unborn | Calling | Ready | Sent

  datatype Caller = Launching | Draining | Returned

  /** The number of replies the collector counts to, and the replies to come. */
  datatype Job<T> = Job(expected: nat, replies: seq<Option<T>>)

  /** received lists the replies in the order in which they were taken out. */
  datatype State<T> = State(
    next: nat,
    senders: seq<Sender>,
    resCh: Option<Option<T>>,
    collecting: bool,
    resCnt: nat,
    statusArr: seq<T>,
    received: seq<Option<T>>,
    resDoneCh: bool,
    caller: Caller)

  datatype Step =
    | Launch              // the caller starts the next sender
    | Reply(i: nat)       // the call of sender i returns
    | Send(i: nat)        // its reply goes into the channel
    | Receive             // the collector takes a reply out
    | Join                // all senders are done
    | Finish              // the collector is done

  function Init<T>(job: Job<T>): State<T> {
    State(0, seq(|job.replies|, _ => Unborn), None, job.expected > 0, 0, [], [], false,
          if job.expected == 0 then Returned else Launching)
  }

  predicate Enabled<T>(job: Job<T>, s: State<T>, e: Step)
    requires |s.senders| == |job.replies|
  {
    match e
    case Launch => s.caller.Launching? && s.next < |s.senders|
    case Reply(i) => i < |s.senders| && s.senders[i].Calling?
    case Send(i) => i < |s.senders| && s.senders[i].Ready? && s.resCh.None?
    case Receive => s.collecting && s.resCh.Some?
    case Join => s.caller.Launching? && s.next == |s.senders| && forall i :: 0 <= i < |s.senders| ==> s.senders[i].Sent?
    case Finish => s.caller.Draining? && s.resDoneCh
  }

  function Apply<T>(job: Job<T>, s: State<T>, e: Step): (t: State<T>)
    requires |s.senders| == |job.replies| && Enabled(job, s, e)
    ensures |t.senders| == |job.replies|
  {
    match e
    case Launch => s.(senders := s.senders[s.next := Calling], next := s.next + 1)
    case Reply(i) => s.(senders := s.senders[i := Ready])
    case Send(i) => s.(senders := s.senders[i := Sent], resCh := Some(job.replies[i]))
    case Receive =>
      var r, n := s.resCh.value, s.resCnt + 1;
      s.(resCh := None, resCnt := n, received := s.received + [r],
         statusArr := if r.Some? then s.statusArr + [r.value] else s.statusArr,
         collecting := n != job.expected, resDoneCh := n == job.expected)
    case Join => s.(caller := Draining)
    case Finish => s.(caller := Returned, resDoneCh := false)
  }

  /** The state a run of steps leads to; None if some step could not happen. */
  ghost function After<T>(job: Job<T>, steps: seq<Step>): (r: Option<State<T>>)
    ensures r.Some? ==> |r.value.senders| == |job.replies|
    decreases |steps|
  {
    if steps == [] then Some(Init(job)) else
      match After(job, steps[..|steps| - 1])
      case None => None
      case Some(s) =>
        if Enabled(job, s, steps[|steps| - 1]) then Some(Apply(job, s, steps[|steps| - 1])) else None
  }

  /** Nothing more can happen. */
  ghost predicate Quiescent<T>(job: Job<T>, s: State<T>)
    requires |s.senders| == |job.replies|
  {
    forall e: Step :: !Enabled(job, s, e)
  }

  /** The replies without error, in order. */
  function Goods<T>(replies: seq<Option<T>>): seq<T> {
    if replies == [] then []
    else Goods(replies[..|replies| - 1]) +
         if replies[|replies| - 1].Some? then [replies[|replies| - 1].value] else []
  }

  // ---- Conservation of replies ---------------------------------------------

  /** The replies that have not yet been put into the channel. */
  ghost function Unsent<T>(senders: seq<Sender>, replies: seq<Option<T>>): (r: multiset<Option<T>>)
    requires |senders| == |replies|
  {
    if senders == [] then multiset{}
    else (if senders[0].Sent? then multiset{} else multiset{replies[0]}) + Unsent(senders[1..], replies[1..])
  }

  lemma {:induction false} UnsentUpdate<T>(senders: seq<Sender>, replies: seq<Option<T>>, i: nat, x: Sender)
    requires |senders| == |replies| && i < |senders| && !senders[i].Sent?
    ensures Unsent(senders, replies) ==
            Unsent(senders[i := x], replies) + if x.Sent? then multiset{replies[i]} else multiset{}
  {
    if i > 0 {
      UnsentUpdate(senders[1..], replies[1..], i - 1, x);
      assert senders[i := x][1..] == senders[1..][i - 1 := x];
    } else {
      assert senders[i := x][1..] == senders[1..];
    }
  }

  lemma {:induction false} UnsentAtStart<T>(senders: seq<Sender>, replies: seq<Option<T>>)
    requires |senders| == |replies| && forall i :: 0 <= i < |senders| ==> !senders[i].Sent?
    ensures Unsent(senders, replies) == multiset(replies)
  {
    if senders != [] {
      UnsentAtStart(senders[1..], replies[1..]);
      assert replies == [replies[0]] + replies[1..];
    }
  }

  lemma {:induction false} UnsentAtEnd<T>(senders: seq<Sender>, replies: seq<Option<T>>)
    requires |senders| == |replies|
    ensures Unsent(senders, replies) == multiset{} <==> forall i :: 0 <= i < |senders| ==> senders[i].Sent?
  {
    if senders != [] {
      UnsentAtEnd(senders[1..], replies[1..]);
      if forall i :: 0 <= i < |senders| ==> senders[i].Sent? {
        assert forall i :: 0 <= i < |senders| - 1 ==> senders[1..][i] == senders[i + 1];
      } else if senders[0].Sent? {
        var i :| 0 <= i < |senders| && !senders[i].Sent?;
        assert senders[1..][i - 1] == senders[i];
      } else {
        assert replies[0] in Unsent(senders, replies);
      }
    }
  }

  ghost function InChannel<T>(s: State<T>): multiset<Option<T>> {
    if s.resCh.Some? then multiset{s.resCh.value} else multiset{}
  }

  /** Every reply is still to be sent, in the channel, or received. */
  ghost predicate Conserved<T>(job: Job<T>, s: State<T>)
    requires |s.senders| == |job.replies|
  {
    Unsent(s.senders, job.replies) + InChannel(s) + multiset(s.received) == multiset(job.replies)
  }

  ghost predicate Inv<T>(job: Job<T>, s: State<T>) {
    && |s.senders| == |job.replies|
    && s.next <= |s.senders|
    && (forall i :: 0 <= i < |s.senders| ==> (s.senders[i].Unborn? <==> s.next <= i))
    && Conserved(job, s)
    && s.resCnt == |s.received| <= job.expected
    && s.statusArr == Goods(s.received)
    && (s.collecting <==> s.resCnt < job.expected)
    && (s.resDoneCh <==> !s.collecting && !s.caller.Returned?)
    && (!s.caller.Launching? ==> forall i :: 0 <= i < |s.senders| ==> s.senders[i].Sent?)
    && (s.caller.Returned? ==> !s.collecting)
  }

  lemma InvHoldsInitially<T>(job: Job<T>)
    requires job.expected > 0
    ensures Inv(job, Init(job))
  {
    UnsentAtStart(Init(job).senders, job.replies);
  }

  lemma StepsConserve<T>(job: Job<T>, s: State<T>, e: Step)
    requires Inv(job, s) && Enabled(job, s, e)
    ensures Conserved(job, Apply(job, s, e))
  {
    match e
    case Launch => UnsentUpdate(s.senders, job.replies, s.next, Calling);
    case Reply(i) => UnsentUpdate(s.senders, job.replies, i, Ready);
    case Send(i) => SendConserves(job, s, i);
    case Receive => ReceiveConserves(job, s);
    case Join =>
    case Finish =>
  }

  lemma SendConserves<T>(job: Job<T>, s: State<T>, i: nat)
    requires Inv(job, s) && Enabled(job, s, Send(i))
    ensures Conserved(job, Apply(job, s, Send(i)))
  {
    UnsentUpdate(s.senders, job.replies, i, Sent);
  }

  lemma ReceiveConserves<T>(job: Job<T>, s: State<T>)
    requires Inv(job, s) && Enabled(job, s, Receive)
    ensures Conserved(job, Apply(job, s, Receive))
  {
    assert multiset(s.received + [s.resCh.value]) == multiset(s.received) + multiset{s.resCh.value};
  }

  lemma InvIsKept<T>(job: Job<T>, s: State<T>, e: Step)
    requires Inv(job, s) && Enabled(job, s, e)
    ensures Inv(job, Apply(job, s, e))
  {
    StepsConserve(job, s, e);
    if e.Receive? {
      ReceiveKeepsInv(job, s);
    }
  }

  lemma ReceiveKeepsInv<T>(job: Job<T>, s: State<T>)
    requires Inv(job, s) && Enabled(job, s, Receive)
    ensures Inv(job, Apply(job, s, Receive))
  {
    StepsConserve(job, s, Receive);
    assert (s.received + [s.resCh.value])[..|s.received|] == s.received;
  }

  lemma {:induction false} RunsKeepInv<T>(job: Job<T>, steps: seq<Step>)
    requires job.expected > 0 && After(job, steps).Some?
    ensures Inv(job, After(job, steps).value)
    decreases |steps|
  {
    if steps == [] {
      InvHoldsInitially(job);
    } else {
      var n := |steps| - 1;
      RunsKeepInv(job, steps[..n]);
      InvIsKept(job, After(job, steps[..n]).value, steps[n]);
    }
  }

  // ---- Termination ---------------------------------------------------------

  function Weight(x: Sender): nat {
    match x case Unborn => 4 case Calling => 3 case Ready => 2 case Sent => 0
  }

  function Total(senders: seq<Sender>): nat {
    if senders == [] then 0 else Weight(senders[0]) + Total(senders[1..])
  }

  lemma {:induction false} TotalUpdate(senders: seq<Sender>, i: nat, x: Sender)
    requires i < |senders|
    ensures Total(senders[i := x]) + Weight(senders[i]) == Total(senders) + Weight(x)
  {
    if i > 0 {
      TotalUpdate(senders[1..], i - 1, x);
      assert senders[i := x][1..] == senders[1..][i - 1 := x];
    } else {
      assert senders[i := x][1..] == senders[1..];
    }
  }

  lemma {:induction false} TotalBound(senders: seq<Sender>)
    ensures Total(senders) <= 4 * |senders|
  {
    if senders != [] {
      TotalBound(senders[1..]);
    }
  }

  /** What is left to do; every step reduces it. */
  function Measure<T>(s: State<T>): nat {
    Total(s.senders) + (if s.resCh.Some? then 1 else 0) +
    match s.caller case Launching => 2 case Draining => 1 case Returned => 0
  }

  lemma StepsReduceMeasure<T>(job: Job<T>, s: State<T>, e: Step)
    requires Inv(job, s) && Enabled(job, s, e)
    ensures Measure(Apply(job, s, e)) < Measure(s)
  {
    match e
    case Launch => TotalUpdate(s.senders, s.next, Calling);
    case Reply(i) => TotalUpdate(s.senders, i, Ready);
    case Send(i) => TotalUpdate(s.senders, i, Sent);
    case _ =>
  }

  /** Every run ends: with n senders it has at most 4n + 2 steps. */
  lemma {:induction false} RunsAreBounded<T>(job: Job<T>, steps: seq<Step>)
    requires job.expected > 0 && After(job, steps).Some?
    ensures |steps| + Measure(After(job, steps).value) <= 4 * |job.replies| + 2
    decreases |steps|
  {
    if steps == [] {
      TotalBound(Init(job).senders);
    } else {
      var n := |steps| - 1;
      RunsAreBounded(job, steps[..n]);
      RunsKeepInv(job, steps[..n]);
      StepsReduceMeasure(job, After(job, steps[..n]).value, steps[n]);
    }
  }

  /** Every run can be continued until nothing more can happen. */
  lemma {:induction false} RunToQuiescence<T>(job: Job<T>, steps: seq<Step>) returns (more: seq<Step>)
    requires job.expected > 0 && After(job, steps).Some?
    ensures After(job, more).Some? && Quiescent(job, After(job, more).value)
    decreases Measure(After(job, steps).value)
  {
    var s := After(job, steps).value;
    if e: Step :| Enabled(job, s, e) {
      RunsKeepInv(job, steps);
      StepsReduceMeasure(job, s, e);
      assert (steps + [e])[..|steps|] == steps;
      more := RunToQuiescence(job, steps + [e]);
    } else {
      more := steps;
    }
  }

  // ---- Deadlock ------------------------------------------------------------

  lemma UnsentSize<T>(job: Job<T>, s: State<T>)
    requires Inv(job, s)
    ensures |Unsent(s.senders, job.replies)| + |InChannel(s)| + s.resCnt == |job.replies|
  {
    assert |multiset(job.replies)| == |job.replies|;
  }

  /** With as many replies as expected, or one more, only the end is quiet. */
  lemma QuietMeansReturned<T>(job: Job<T>, s: State<T>)
    requires Inv(job, s) && Quiescent(job, s)
    requires job.expected <= |job.replies| <= job.expected + 1
    ensures s.caller.Returned?
  {
    UnsentSize(job, s);
    UnsentAtEnd(s.senders, job.replies);
    assert !Enabled(job, s, Launch) && !Enabled(job, s, Receive) && !Enabled(job, s, Join) && !Enabled(job, s, Finish);
    forall i | 0 <= i < |s.senders| ensures !s.senders[i].Calling? && (s.senders[i].Ready? ==> s.resCh.Some?) {
      assert !Enabled(job, s, Reply(i)) && !Enabled(job, s, Send(i));
    }
  }

  /** The caller returns only when all replies went through the channel, at
      most one of them still in it. */
  lemma ReturnedMeansEnough<T>(job: Job<T>, s: State<T>)
    requires Inv(job, s) && s.caller.Returned?
    ensures |job.replies| == job.expected + |InChannel(s)| <= job.expected + 1
    ensures multiset(s.received) + InChannel(s) == multiset(job.replies)
  {
    UnsentSize(job, s);
    UnsentAtEnd(s.senders, job.replies);
  }

  /** In every run, when nothing more can happen, the caller has returned. */
  ghost predicate NeverStuck<T(!new)>(job: Job<T>) {
    forall steps: seq<Step> :: After(job, steps).Some? && Quiescent(job, After(job, steps).value)
      ==> After(job, steps).value.caller.Returned?
  }

  /** Main result: no interleaving gets stuck before the caller returns -- if
      and only if the number of senders is the expected number or one more. */
  lemma NeverStuckIffCountsAgree<T(!new)>(job: Job<T>)
    requires job.expected > 0
    ensures NeverStuck(job) <==> job.expected <= |job.replies| <= job.expected + 1
  {
    if job.expected <= |job.replies| <= job.expected + 1 {
      forall steps: seq<Step> | After(job, steps).Some? && Quiescent(job, After(job, steps).value)
        ensures After(job, steps).value.caller.Returned?
      {
        RunsKeepInv(job, steps);
        QuietMeansReturned(job, After(job, steps).value);
      }
    } else {
      assert After(job, []).Some?;
      var steps := RunToQuiescence(job, []);
      RunsKeepInv(job, steps);
      if After(job, steps).value.caller.Returned? {
        ReturnedMeansEnough(job, After(job, steps).value);
      }
    }
  }

  // ---- What is returned ----------------------------------------------------

  lemma {:induction false} GoodsCount<T>(replies: seq<Option<T>>, x: T)
    ensures multiset(Goods(replies))[x] == multiset(replies)[Some(x)]
    decreases |replies|
  {
    if replies != [] {
      var n := |replies| - 1;
      var front, last := replies[..n], replies[n];
      GoodsCount(front, x);
      assert multiset(replies) == multiset(front) + multiset{last} by { assert replies == front + [last]; }
    }
  }

  lemma GoodsOfPermutation<T(!new)>(a: seq<Option<T>>, b: seq<Option<T>>)
    requires multiset(a) == multiset(b)
    ensures multiset(Goods(a)) == multiset(Goods(b))
  {
    forall x: T ensures multiset(Goods(a))[x] == multiset(Goods(b))[x] {
      GoodsCount(a, x);
      GoodsCount(b, x);
    }
  }

  /** With nothing to expect the caller returns before anything happens. */
  lemma {:induction false} ReturnsAtOnce<T>(job: Job<T>, steps: seq<Step>)
    requires job.expected == |job.replies| == 0 && After(job, steps).Some?
    ensures After(job, steps).value == Init(job)
    decreases |steps|
  {
    if steps != [] {
      ReturnsAtOnce(job, steps[..|steps| - 1]);
    }
  }

  /** Main result: with one sender per expected reply, whatever the
      interleaving, the caller returns with exactly the replies without error. */
  lemma ReturnsAllGoods<T(!new)>(job: Job<T>, steps: seq<Step>)
    requires job.expected == |job.replies|
    requires After(job, steps).Some? && After(job, steps).value.caller.Returned?
    ensures var s := After(job, steps).value;
            && s.resCnt == job.expected
            && multiset(s.statusArr) == multiset(Goods(job.replies))
  {
    if job.expected == 0 {
      ReturnsAtOnce(job, steps);
      return;
    }
    RunsKeepInv(job, steps);
    var s := After(job, steps).value;
    ReturnedMeansEnough(job, s);
    assert InChannel(s) == multiset{};
    GoodsOfPermutation(s.received, job.replies);
  }

  /** With one sender too many, the caller returns and one reply is lost. */
  lemma OneTooManyLosesOne<T>(job: Job<T>, steps: seq<Step>) returns (lost: Option<T>)
    requires |job.replies| == job.expected + 1 && job.expected > 0
    requires After(job, steps).Some? && After(job, steps).value.caller.Returned?
    ensures multiset(After(job, steps).value.received) + multiset{lost} == multiset(job.replies)
  {
    RunsKeepInv(job, steps);
    var s := After(job, steps).value;
    ReturnedMeansEnough(job, s);
    assert s.resCh.Some?;
    lost := s.resCh.value;
  }
}
