/** Control of the blockchain client and the privacy manager, as a shell process
    or as a docker container.  The k-th upcheck of a process gets the k-th
    answer of a stream; commands succeed or fail as a parameter says. */
module Process {
  import opened Basics

  /** An upcheck that fails counts as a process that is down. */
  type Upchecks = nat -> Result<bool>

  const RETRY_COUNT := 30

  /** The first answer from k on and before end that reads as wanted, or end. */
  ghost function FirstAt(upchecks: Upchecks, k: nat, end: nat, wanted: bool): (at: nat)
    requires k <= end
    ensures k <= at <= end
    ensures at < end ==> (upchecks(at) == Ok(true)) == wanted
    ensures forall j :: k <= j < at ==> (upchecks(j) == Ok(true)) != wanted
    decreases end - k
  {
    if k == end || (upchecks(k) == Ok(true)) == wanted then k else FirstAt(upchecks, k + 1, end, wanted)
  }

  /** One of the RETRY_COUNT answers from k on reads as wanted. */
  ghost predicate Within(upchecks: Upchecks, k: nat, wanted: bool) {
    exists j :: k <= j < k + RETRY_COUNT && (upchecks(j) == Ok(true)) == wanted
  }

  /** How many answers a wait loop that starts at k uses up: all up to and
      including the first that reads as wanted, but no more than RETRY_COUNT. */
  ghost function Used(upchecks: Upchecks, k: nat, wanted: bool): nat {
    var at := FirstAt(upchecks, k, k + RETRY_COUNT, wanted);
    if at < k + RETRY_COUNT then at + 1 - k else RETRY_COUNT
  }

  class ShellProcessControl {
    const upchecks: Upchecks
    var checks: nat   // answers used so far
    var status: bool

    /** The cached status is what the last upcheck said. */
    predicate Coherent()
      reads this
    {
      checks > 0 && status == (upchecks(checks - 1) == Ok(true))
    }

    constructor (upchecks: Upchecks)
      ensures this.upchecks == upchecks && Coherent()
      ensures checks == 1 && (status <==> upchecks(0) == Ok(true))
    {
      this.upchecks := upchecks;
      status, checks := true, 0;
      new;
      var s := UpdateStatus();
    }

    method UpdateStatus() returns (s: bool)
      modifies this
      ensures s == status && (s <==> upchecks(old(checks)) == Ok(true)) && checks == old(checks) + 1
    {
      var answer := upchecks(checks);
      checks := checks + 1;
      status := if answer.Failed? then false else answer.value;
      return status;
    }

    method WaitToComeUp() returns (up: bool)
      modifies this
      ensures up <==> exists j :: old(checks) <= j < old(checks) + 30 && upchecks(j) == Ok(true)
      ensures if up then old(checks) < checks && upchecks(checks - 1) == Ok(true) else checks == old(checks) + 30
      ensures forall j :: old(checks) <= j < checks - 1 ==> upchecks(j) != Ok(true)
      ensures up <==> Within(upchecks, old(checks), true)
      ensures checks == old(checks) + Used(upchecks, old(checks), true) && status == up && Coherent()
    {
      ghost var first := FirstAt(upchecks, checks, checks + RETRY_COUNT, true);
      var c := 1;
      while c <= RETRY_COUNT
        invariant 1 <= c <= RETRY_COUNT + 1 && checks == old(checks) + c - 1
        invariant first >= checks && (c > 1 ==> Coherent() && !status)
      {
        var s := UpdateStatus();
        if s {
          return true;
        }
        c := c + 1;
      }
      return false;
    }

    method WaitToBeDown() returns (down: bool)
      modifies this
      ensures down <==> exists j :: old(checks) <= j < old(checks) + 30 && upchecks(j) != Ok(true)
      ensures if down then old(checks) < checks && upchecks(checks - 1) != Ok(true) else checks == old(checks) + 30
      ensures forall j :: old(checks) <= j < checks - 1 ==> upchecks(j) == Ok(true)
      ensures down <==> Within(upchecks, old(checks), false)
      ensures checks == old(checks) + Used(upchecks, old(checks), false) && status == !down && Coherent()
    {
      ghost var first := FirstAt(upchecks, checks, checks + RETRY_COUNT, false);
      var c := 1;
      while c <= RETRY_COUNT
        invariant 1 <= c <= RETRY_COUNT + 1 && checks == old(checks) + c - 1
        invariant first >= checks && (c > 1 ==> Coherent() && status)
      {
        var s := UpdateStatus();
        if !s {
          return true;
        }
        c := c + 1;
      }
      return false;
    }

    /** Fails exactly when the process is left cached as up. */
    method Stop(commandOk: bool) returns (err: bool)
      requires Coherent()
      modifies this
      ensures !err <==> !old(status) || (commandOk && Within(upchecks, old(checks), false))
      ensures old(status) && commandOk && upchecks(old(checks)) == Failed ==> !err && checks == old(checks) + 1
      ensures old(status) && (forall j :: old(checks) <= j < old(checks) + 30 ==> upchecks(j) == Ok(true)) ==> err
      ensures status == err && Coherent()
      ensures checks == old(checks) + if old(status) && commandOk then Used(upchecks, old(checks), false) else 0
    {
      if !status {
        return false;
      }
      if commandOk {
        var down := WaitToBeDown();
        if down {
          status := false;
        } else {
          status := true;
          return true;
        }
      } else {
        return true;
      }
      return false;
    }

    /** Succeeds exactly when the process is left cached as up. */
    method Start(commandOk: bool) returns (err: bool)
      requires Coherent()
      modifies this
      ensures !err <==> old(status) || (commandOk && Within(upchecks, old(checks), true))
      ensures !old(status) && (forall j :: old(checks) <= j < old(checks) + 30 ==> upchecks(j) != Ok(true)) ==> err
      ensures !old(status) && commandOk && upchecks(old(checks)) == Ok(true) ==> !err && checks == old(checks) + 1
      ensures status == !err && Coherent()
      ensures checks == old(checks) + if !old(status) && commandOk then Used(upchecks, old(checks), true) else 0
    {
      if status {
        return false;
      }
      if commandOk {
        var up := WaitToComeUp();
        if up {
          status := true;
        } else {
          status := false;
          return true;
        }
      } else {
        return true;
      }
      return false;
    }
  }

  class DockerControl {
    const upchecks: Upchecks
    var checks: nat
    var status: bool

    predicate Coherent()
      reads this
    {
      checks > 0 && status == (upchecks(checks - 1) == Ok(true))
    }

    constructor (upchecks: Upchecks)
      ensures this.upchecks == upchecks && Coherent()
      ensures checks == 1 && (status <==> upchecks(0) == Ok(true))
    {
      this.upchecks := upchecks;
      status, checks := true, 0;
      new;
      var s := UpdateStatus();
    }

    method UpdateStatus() returns (s: bool)
      modifies this
      ensures s == status && (s <==> upchecks(old(checks)) == Ok(true)) && checks == old(checks) + 1
    {
      var answer := upchecks(checks);
      checks := checks + 1;
      status := if answer.Failed? then false else answer.value;
      return status;
    }

    method WaitToComeUp() returns (up: bool)
      modifies this
      ensures up <==> exists j :: old(checks) <= j < old(checks) + 30 && upchecks(j) == Ok(true)
      ensures if up then old(checks) < checks && upchecks(checks - 1) == Ok(true) else checks == old(checks) + 30
      ensures forall j :: old(checks) <= j < checks - 1 ==> upchecks(j) != Ok(true)
      ensures up <==> Within(upchecks, old(checks), true)
      ensures checks == old(checks) + Used(upchecks, old(checks), true) && status == up && Coherent()
    {
      ghost var first := FirstAt(upchecks, checks, checks + RETRY_COUNT, true);
      var c := 1;
      while c <= RETRY_COUNT
        invariant 1 <= c <= RETRY_COUNT + 1 && checks == old(checks) + c - 1
        invariant first >= checks && (c > 1 ==> Coherent() && !status)
      {
        var s := UpdateStatus();
        if s {
          return true;
        }
        c := c + 1;
      }
      return false;
    }

    method WaitToBeDown() returns (down: bool)
      modifies this
      ensures down <==> exists j :: old(checks) <= j < old(checks) + 30 && upchecks(j) != Ok(true)
      ensures if down then old(checks) < checks && upchecks(checks - 1) != Ok(true) else checks == old(checks) + 30
      ensures forall j :: old(checks) <= j < checks - 1 ==> upchecks(j) == Ok(true)
      ensures down <==> Within(upchecks, old(checks), false)
      ensures checks == old(checks) + Used(upchecks, old(checks), false) && status == !down && Coherent()
    {
      ghost var first := FirstAt(upchecks, checks, checks + RETRY_COUNT, false);
      var c := 1;
      while c <= RETRY_COUNT
        invariant 1 <= c <= RETRY_COUNT + 1 && checks == old(checks) + c - 1
        invariant first >= checks && (c > 1 ==> Coherent() && status)
      {
        var s := UpdateStatus();
        if !s {
          return true;
        }
        c := c + 1;
      }
      return false;
    }

    /** Unlike the shell controller, a stop command that fails on a running
        container is reported as an error yet cached as down; exactly then the
        cached status no longer agrees with the last upcheck. */
    method Stop(clientOk: bool, commandOk: bool) returns (err: bool)
      modifies this
      ensures !err <==> !old(status) || (clientOk && commandOk && Within(upchecks, old(checks), false))
      ensures old(status) && clientOk && commandOk && upchecks(old(checks)) == Failed ==>
                !err && checks == old(checks) + 1
      ensures old(status) && (forall j :: old(checks) <= j < old(checks) + 30 ==> upchecks(j) == Ok(true)) ==> err
      ensures status == (err && (!clientOk || commandOk))
      ensures old(Coherent()) ==> (Coherent() <==> !(old(status) && clientOk && !commandOk))
      ensures checks == old(checks) +
                if old(status) && clientOk && commandOk then Used(upchecks, old(checks), false) else 0
    {
      if !status {
        return false;
      }
      if !clientOk {
        return true;
      }
      if commandOk {
        var down := WaitToBeDown();
        if down {
          status := false;
        } else {
          status := true;
          return true;
        }
      } else {
        status := false;
        return true;
      }
      return false;
    }

    method Start(clientOk: bool, commandOk: bool) returns (err: bool)
      modifies this
      ensures !err <==> old(status) || (clientOk && commandOk && Within(upchecks, old(checks), true))
      ensures !old(status) && (forall j :: old(checks) <= j < old(checks) + 30 ==> upchecks(j) != Ok(true)) ==> err
      ensures !old(status) && clientOk && commandOk && upchecks(old(checks)) == Ok(true) ==>
                !err && checks == old(checks) + 1
      ensures status == !err
      ensures old(Coherent()) ==> Coherent()
      ensures checks == old(checks) +
                if !old(status) && clientOk && commandOk then Used(upchecks, old(checks), true) else 0
    {
      if status {
        return false;
      }
      if !clientOk {
        return true;
      }
      if commandOk {
        var up := WaitToComeUp();
        if up {
          status := true;
        } else {
          status := false;
          return true;
        }
      } else {
        return true;
      }
      return false;
    }
  }
}
