/**
 The mutex-guarded part of `Client` (client/client.go).

 Each function is one critical section, from lock to unlock, as a function of the
 guarded fields. The class carries the same fields and the same statements, and every
 method is proved to compute its function.

 A call to `acquire` that starts a node never goes round its loop again, and calls
 `release` at most once. So a start-up channel is named by the call that made it, a
 node by the call that built it, and an idle timer by the call whose release armed it.
 */
module ClientCore {
  import opened Wrappers

  type Call = nat

  // `ticking` is the runtime's side of the timers: those armed, not stopped, not fired.
  datatype Shared = Shared(
    node: Option<Call>, starting: Option<Call>, inflight: int,
    timer: Option<Call>, closed: bool, ticking: set<Call>)

  datatype Claim = Refused | Reuse(node: Call) | Await(pending: Call) | Start

  function StoppedTimer(sh: Shared): Shared {
    if sh.timer.Some?
    then sh.(ticking := sh.ticking - {sh.timer.value}, timer := None)
    else sh
  }

  // The first critical section of `acquire`.
  function Claimed(sh: Shared, call: Call): (Shared, Claim) {
    if sh.closed then (sh, Refused)
    else
      var quiet := StoppedTimer(sh);
      if quiet.node.Some? then
        (quiet.(inflight := quiet.inflight + 1), Reuse(quiet.node.value))
      else if quiet.starting.Some? then
        (quiet, Await(quiet.starting.value))
      else
        (quiet.(starting := Some(call), inflight := quiet.inflight + 1), Start)
  }

  // The second critical section of `acquire`, once `startNode` has returned.
  function Settled(sh: Shared, call: Call, built: bool): Shared {
    sh.(starting := None, node := if built && !sh.closed then Some(call) else sh.node)
  }

  function Released(sh: Shared, call: Call, idle: int): Shared {
    var left := sh.(inflight := sh.inflight - 1);
    if left.inflight > 0 || left.closed || idle <= 0 then left
    else
      var quiet := StoppedTimer(left);
      quiet.(timer := Some(call), ticking := quiet.ticking + {call})
  }

  // `closeIdle`, with the node it takes away to close.
  function Swept(sh: Shared): (Shared, Option<Call>) {
    if sh.closed || sh.inflight > 0 || sh.node.None? then (sh, None)
    else (sh.(node := None, timer := None), sh.node)
  }

  // `Close`, with the node it takes away to close.
  function Retired(sh: Shared): (Shared, Option<Call>) {
    if sh.closed then (sh, None)
    else (StoppedTimer(sh).(closed := true, node := None), sh.node)
  }

  class Client {
    const idle: int
    var node: Option<Call>
    var starting: Option<Call>
    var inflight: int
    var timer: Option<Call>
    var closed: bool
    var ticking: set<Call>

    constructor (idle: int)
      ensures this.idle == idle
      ensures Abstract() == Shared(None, None, 0, None, false, {})
    {
      this.idle := idle;
      node, starting, inflight, timer, closed, ticking := None, None, 0, None, false, {};
    }

    ghost function Abstract(): Shared
      reads this
    {
      Shared(node, starting, inflight, timer, closed, ticking)
    }

    method StopTimer()
      modifies `timer, `ticking
      ensures Abstract() == StoppedTimer(old(Abstract()))
    {
      if timer.Some? {
        ticking := ticking - {timer.value};
        timer := None;
      }
    }

    method Acquire(call: Call) returns (claim: Claim)
      modifies this
      ensures (Abstract(), claim) == Claimed(old(Abstract()), call)
    {
      if closed {
        return Refused;
      }

      StopTimer();

      if node.Some? {
        inflight := inflight + 1;
        return Reuse(node.value);
      }

      if starting.Some? {
        return Await(starting.value);
      }

      starting := Some(call);
      inflight := inflight + 1;
      return Start;
    }

    method Settle(call: Call, built: bool) returns (tooLate: bool)
      modifies this
      ensures Abstract() == Settled(old(Abstract()), call, built)
      ensures tooLate == old(closed)
    {
      starting := None;
      tooLate := closed;
      if built && !tooLate {
        node := Some(call);
      }
    }

    method Release(call: Call)
      modifies this
      ensures Abstract() == Released(old(Abstract()), call, idle)
    {
      inflight := inflight - 1;

      if inflight > 0 || closed || idle <= 0 {
        return;
      }

      StopTimer();
      timer := Some(call);
      ticking := ticking + {call};
    }

    method CloseIdle() returns (victim: Option<Call>)
      modifies this
      ensures (Abstract(), victim) == Swept(old(Abstract()))
    {
      if closed || inflight > 0 || node.None? {
        return None;
      }

      victim := node;
      node := None;
      timer := None;
    }

    method Close() returns (victim: Option<Call>)
      modifies this
      ensures (Abstract(), victim) == Retired(old(Abstract()))
    {
      if closed {
        return None;
      }

      closed := true;
      StopTimer();
      victim := node;
      node := None;
    }
  }
}
