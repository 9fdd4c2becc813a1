/**
 The unverified fallback of client/fallback.go: the pause a throttling host asks for, and the
 loop that tries one gateway after another. Durations are in nanoseconds.
 */
module Gateways {
  import opened Wrappers
  import opened FixedWidth

  // ---------------------------------------------------------------- Retry-After

  const SECOND: int := 1_000_000_000

  // A Retry-After header as `strconv.ParseInt` or else `time.Parse` reads it.
  datatype RetryAfter = Seconds(secs: int) | Date(until: int) | Unreadable

  // The backoff constants of the httpnet package.
  datatype Backoff = Backoff(default: int, most: int)

  function Asked(header: RetryAfter): int {
    match header
    case Seconds(secs) => Wrap64(secs * SECOND)
    case Date(until) => until
    case Unreadable => 0
  }

  function RetryAfterDelay(header: RetryAfter, backoff: Backoff): int {
    var wait := Asked(header);
    if wait <= 0 then backoff.default
    else if wait < backoff.most then wait else backoff.most
  }

  predicate SaneBackoff(backoff: Backoff) {
    0 < backoff.default <= backoff.most <= MAX_INT64
  }

  // There is always a pause, and never one past the maximum, wrapped product or not.
  lemma DelayIsBounded(header: RetryAfter, backoff: Backoff)
    requires SaneBackoff(backoff)
    ensures 0 < RetryAfterDelay(header, backoff) <= backoff.most
  {
  }

  // What each kind of header comes to: the time to a date, capped, and the default pause for one
  // that has passed, for seconds that are none, and for anything unreadable.
  lemma WhatHeadersAskFor(backoff: Backoff, secs: int, until: int)
    requires SaneBackoff(backoff)
    ensures RetryAfterDelay(Unreadable, backoff) == backoff.default
    ensures RetryAfterDelay(Date(until), backoff) ==
      if until <= 0 then backoff.default else if until <= backoff.most then until else backoff.most
    ensures Int64(secs * SECOND) && secs <= 0 ==> RetryAfterDelay(Seconds(secs), backoff) == backoff.default
    ensures Int64(secs * SECOND) && secs > 0 ==>
      RetryAfterDelay(Seconds(secs), backoff) == if secs * SECOND <= backoff.most then secs * SECOND else backoff.most
  {
  }

  // The wait a host asked for in seconds, capped.
  predicate Honoured(secs: int, backoff: Backoff) {
    RetryAfterDelay(Seconds(secs), backoff) == if secs * SECOND < backoff.most then secs * SECOND else backoff.most
  }

  // A wait in seconds is honoured up to the cap exactly when it fits 64 bits of nanoseconds,
  // or wraps to something that comes to the cap anyway.
  lemma WhenWaitsAreHonoured(secs: int, backoff: Backoff)
    requires SaneBackoff(backoff) && secs > 0 && Int64(secs)
    ensures Honoured(secs, backoff) <==>
      var wrapped := Wrap64(secs * SECOND);
      secs * SECOND <= MAX_INT64 || wrapped >= backoff.most || (wrapped <= 0 && backoff.default == backoff.most)
  {
  }

  // Some twenty quadrillion seconds come to a pause of half a microsecond.
  lemma AHugeWaitWrapsToNothing(backoff: Backoff)
    requires SaneBackoff(backoff) && backoff.most > 512
    ensures Int64(HUGE) && RetryAfterDelay(Seconds(HUGE), backoff) == 512 && !Honoured(HUGE, backoff)
  {
    assert HUGE * SECOND == WRAPS * 0x1_0000_0000_0000_0000 + 512;
  }

  const HUGE: int := 20211507185753197
  const WRAPS: int := 1095668

  // ---------------------------------------------------------------- cooldowns

  type Deadlines = map<string, int>

  // A gateway, with the host its URL names if it parses.
  datatype Gateway = Gateway(url: string, host: Option<string>)

  function CoolingUntil(deadlines: Deadlines, gateway: Gateway, now: int): Option<int> {
    if gateway.host.Some? && gateway.host.value in deadlines && now < deadlines[gateway.host.value]
    then Some(deadlines[gateway.host.value]) else None
  }

  class Cooldowns {
    var deadlines: Deadlines

    constructor ()
      ensures deadlines == map[]
    {
      deadlines := map[];
    }

    method CoolingDown(gateway: Gateway, now: int) returns (until: Option<int>)
      ensures until == CoolingUntil(deadlines, gateway, now)
    {
      if gateway.host.None? || gateway.host.value !in deadlines || !(now < deadlines[gateway.host.value]) {
        return None;
      }
      return Some(deadlines[gateway.host.value]);
    }

    method Start(host: string, header: RetryAfter, backoff: Backoff, now: int)
      modifies this
      ensures deadlines == old(deadlines)[host := now + RetryAfterDelay(header, backoff)]
    {
      var wait := RetryAfterDelay(header, backoff);
      deadlines := deadlines[host := now + wait];
    }
  }

  // A host told the fallback to slow down.
  datatype Throttled = Throttled(host: string, header: RetryAfter, at: int)

  function Replay(log: seq<Throttled>, backoff: Backoff): Deadlines {
    if log == [] then map[]
    else
      var last := log[|log| - 1];
      Replay(log[..|log| - 1], backoff)[last.host := last.at + RetryAfterDelay(last.header, backoff)]
  }

  function Latest(log: seq<Throttled>, host: string): Option<Throttled> {
    if log == [] then None
    else if log[|log| - 1].host == host then Some(log[|log| - 1])
    else Latest(log[..|log| - 1], host)
  }

  // Whatever hosts answered in whatever order, one is cooling exactly while the wait it asked
  // for last has not passed, so always right after it asked and never past the maximum.
  lemma {:induction false} CoolingIsTheLatestWait(log: seq<Throttled>, backoff: Backoff, gateway: Gateway, now: int)
    requires SaneBackoff(backoff) && gateway.host.Some?
    ensures var latest, until := Latest(log, gateway.host.value), CoolingUntil(Replay(log, backoff), gateway, now);
      && (until.Some? <==> latest.Some? && now < latest.value.at + RetryAfterDelay(latest.value.header, backoff))
      && (until.Some? ==> until.value == latest.value.at + RetryAfterDelay(latest.value.header, backoff))
      && (latest.Some? && now <= latest.value.at ==> until.Some?)
      && (latest.Some? && now >= latest.value.at + backoff.most ==> until.None?)
  {
    if log != [] {
      CoolingIsTheLatestWait(log[..|log| - 1], backoff, gateway, now);
    }
  }

  // ---------------------------------------------------------------- the loop

  datatype Attempt = Served | OverLimit(size: int, limit: int) | Refused | SlowDown(header: RetryAfter, at: int)

  // What one pass of the loop meets, whatever other downloads and `Close` did in the meantime:
  // the client retired or not before and after, the hosts that told others to slow down since
  // the pass before, the time, how the attempt ends, and whether the caller's context is done.
  datatype Turn = Turn(
    closedBefore: bool, others: seq<Throttled>, now: int, attempt: Attempt, closedAfter: bool, expired: bool)

  datatype Failure = Cooling(gateway: nat, until: int) | Failed(gateway: nat)

  datatype Fetch = Fetched | Closed | TooBig(size: int, limit: int) | Expired | NoGateways | NoneServed(failures: seq<Failure>)

  // What a run goes by: the hosts that said to slow down before it, and what its passes meet.
  datatype Run = Run(log: seq<Throttled>, backoff: Backoff, gateways: seq<Gateway>, turns: seq<Turn>)

  predicate Matched(run: Run) {
    |run.turns| == |run.gateways|
  }

  // Every host that said to slow down, to this run or to others, when pass `g` looks.
  function SeenAt(run: Run, g: nat): seq<Throttled>
    requires Matched(run) && g < |run.gateways|
    decreases g, 1
  {
    SeenBefore(run, g) + run.turns[g].others
  }

  function SeenBefore(run: Run, g: nat): seq<Throttled>
    requires Matched(run) && g <= |run.gateways|
    decreases g, 0
  {
    if g == 0 then run.log
    else
      var turn, host := run.turns[g - 1], run.gateways[g - 1].host;
      SeenAt(run, g - 1) +
      (if Asks(run, g - 1) && turn.attempt.SlowDown? && host.Some?
       then [Throttled(host.value, turn.attempt.header, turn.attempt.at)] else [])
  }

  function CoolsUntil(run: Run, g: nat): Option<int>
    requires Matched(run) && g < |run.gateways|
    decreases g, 2
  {
    CoolingUntil(Replay(SeenAt(run, g), run.backoff), run.gateways[g], run.turns[g].now)
  }

  predicate Asks(run: Run, g: nat)
    requires Matched(run) && g < |run.gateways|
    decreases g, 3
  {
    !run.turns[g].closedBefore && CoolsUntil(run, g).None?
  }

  predicate Rejected(attempt: Attempt) {
    attempt.Refused? || attempt.SlowDown?
  }

  // A run gets to a pass if every one before it let it go on.
  predicate Reaches(run: Run, g: nat)
    requires Matched(run) && g <= |run.gateways|
  {
    forall h: nat :: h < g ==>
      !run.turns[h].closedBefore && (Asks(run, h) ==>
        Rejected(run.turns[h].attempt) && !run.turns[h].closedAfter && !run.turns[h].expired)
  }

  lemma ReplayMore(log: seq<Throttled>, more: seq<Throttled>, backoff: Backoff)
    requires more != []
    ensures var last := more[|more| - 1];
      Replay(log + more, backoff) ==
        Replay(log + more[..|more| - 1], backoff)[last.host := last.at + RetryAfterDelay(last.header, backoff)]
  {
    assert (log + more)[..|log + more| - 1] == log + more[..|more| - 1];
  }

  // Other downloads being told to slow down.
  method Elsewhere(cooldowns: Cooldowns, ghost log: seq<Throttled>, others: seq<Throttled>, backoff: Backoff)
    requires cooldowns.deadlines == Replay(log, backoff)
    modifies cooldowns
    ensures cooldowns.deadlines == Replay(log + others, backoff)
  {
    assert log + [] == log;
    for i := 0 to |others|
      invariant cooldowns.deadlines == Replay(log + others[..i], backoff)
    {
      ReplayMore(log, others[..i + 1], backoff);
      assert others[..i + 1][..i] == others[..i];
      cooldowns.Start(others[i].host, others[i].header, backoff, others[i].at);
    }
    assert others[..|others|] == others;
  }

  // One attempt, with the cooldown it starts when the host says to slow down.
  method FetchFromGateway(cooldowns: Cooldowns, ghost log: seq<Throttled>, gateway: Gateway, attempt: Attempt, backoff: Backoff)
    requires cooldowns.deadlines == Replay(log, backoff)
    modifies cooldowns
    ensures cooldowns.deadlines == Replay(log +
      (if attempt.SlowDown? && gateway.host.Some? then [Throttled(gateway.host.value, attempt.header, attempt.at)] else []),
      backoff)
  {
    assert log + [] == log;
    if attempt.SlowDown? && gateway.host.Some? {
      ReplayMore(log, [Throttled(gateway.host.value, attempt.header, attempt.at)], backoff);
      cooldowns.Start(gateway.host.value, attempt.header, backoff, attempt.at);
    }
  }

  // One run asks gateways in order, each at most once. It gets past a pass exactly if the client
  // is open when it looks, and the gateway is cooling, or is asked and turns the request down
  // with the client still open and time left. It stops at the first other pass, which alone says
  // how it ends: a finished download counts even if the client was retired meanwhile, retirement
  // hides every error, and too much content hides a deadline. "None served" comes with exactly one
  // failure for each gateway, in order. Every host that told the run to slow down is on record
  // for the passes that follow.
  method FetchFromGateways(cooldowns: Cooldowns, run: Run) returns (result: Fetch, asked: seq<nat>, ghost stop: nat)
    requires Matched(run) && cooldowns.deadlines == Replay(run.log, run.backoff)
    modifies cooldowns
    ensures stop <= |run.gateways|
    ensures forall g: nat :: g < stop ==>
      var turn := run.turns[g];
      && !turn.closedBefore
      && (CoolsUntil(run, g).Some? ||
          ((turn.attempt.Refused? || turn.attempt.SlowDown?) && !turn.closedAfter && !turn.expired))
    ensures stop < |run.gateways| ==>
      var turn := run.turns[stop];
      if turn.closedBefore then result == Closed
      else
        && CoolsUntil(run, stop).None?
        && (match turn.attempt
            case Served => result == Fetched
            case OverLimit(size, limit) => result == if turn.closedAfter then Closed else Fetch.TooBig(size, limit)
            case _ => (turn.closedAfter || turn.expired) && result == if turn.closedAfter then Closed else Expired)
    ensures stop == |run.gateways| ==>
      if run.gateways == [] then result == NoGateways
      else
        && result.NoneServed? && |result.failures| == |run.gateways|
        && forall g :: 0 <= g < |run.gateways| ==>
          result.failures[g] == if CoolsUntil(run, g).Some? then Cooling(g, CoolsUntil(run, g).value) else Failed(g)
    ensures forall i, j :: 0 <= i < j < |asked| ==> asked[i] < asked[j]
    ensures forall g: nat :: g in asked <==>
      g <= stop && g < |run.gateways| && !run.turns[g].closedBefore && CoolsUntil(run, g).None?
    ensures forall g: nat :: g <= |run.gateways| ==> (Reaches(run, g) <==> g <= stop)
    ensures cooldowns.deadlines == Replay(SeenBefore(run, if stop < |run.gateways| then stop + 1 else stop), run.backoff)
  {
    hide SeenAt, SeenBefore, CoolsUntil, Replay, RetryAfterDelay;
    asked, stop := [], 0;
    assert SeenBefore(run, 0) == run.log by { StartsWithLog(run); }
    if |run.gateways| == 0 {
      return NoGateways, asked, stop;
    }

    var failures: seq<Failure> := [];
    for i := 0 to |run.gateways|
      invariant stop == i && Reaches(run, i)
      invariant cooldowns.deadlines == Replay(SeenBefore(run, i), run.backoff)
      invariant forall j :: 0 <= j < |asked| ==> asked[j] < i
      invariant forall j, k :: 0 <= j < k < |asked| ==> asked[j] < asked[k]
      invariant forall g: nat :: g in asked <==> g < i && Asks(run, g)
      invariant |failures| == i
      invariant forall g :: 0 <= g < i ==>
        failures[g] == if CoolsUntil(run, g).Some? then Cooling(g, CoolsUntil(run, g).value) else Failed(g)
    {
      var turn := run.turns[i];
      OnePassMore(run, i);
      Elsewhere(cooldowns, SeenBefore(run, i), turn.others, run.backoff);
      if turn.closedBefore {
        return Closed, asked, stop;
      }

      var until := cooldowns.CoolingDown(run.gateways[i], turn.now);
      assert until == CoolsUntil(run, i);
      if until.Some? {
        failures := failures + [Cooling(i, until.value)];
        stop := i + 1;
        continue;
      }

      ghost var before := asked;
      asked := asked + [i];
      assert forall g: nat :: g in asked <==> g in before || g == i;
      FetchFromGateway(cooldowns, SeenAt(run, i), run.gateways[i], turn.attempt, run.backoff);
      if turn.attempt.Served? {
        return Fetched, asked, stop;
      }
      if turn.closedAfter {
        return Closed, asked, stop;
      }
      if turn.attempt.OverLimit? {
        return Fetch.TooBig(turn.attempt.size, turn.attempt.limit), asked, stop;
      }
      if turn.expired {
        return Expired, asked, stop;
      }
      failures := failures + [Failed(i)];
      stop := i + 1;
    }
    result := NoneServed(failures);
  }

  lemma StartsWithLog(run: Run)
    requires Matched(run)
    ensures SeenBefore(run, 0) == run.log
  {
  }

  lemma OnePassMore(run: Run, g: nat)
    requires Matched(run) && g < |run.gateways|
    ensures SeenAt(run, g) == SeenBefore(run, g) + run.turns[g].others
    ensures CoolsUntil(run, g) == CoolingUntil(Replay(SeenAt(run, g), run.backoff), run.gateways[g], run.turns[g].now)
    ensures SeenBefore(run, g + 1) == SeenAt(run, g) +
      (if Asks(run, g) && run.turns[g].attempt.SlowDown? && run.gateways[g].host.Some?
       then [Throttled(run.gateways[g].host.value, run.turns[g].attempt.header, run.turns[g].attempt.at)] else [])
    ensures !Asks(run, g) ==> SeenBefore(run, g + 1) == SeenAt(run, g)
  {
    assert SeenAt(run, g) + [] == SeenAt(run, g);
  }

  // ---------------------------------------------------------------- a host named twice

  predicate Mentions(log: seq<Throttled>, host: string) {
    exists i :: 0 <= i < |log| && log[i].host == host
  }

  lemma {:induction false} LatestOfMore(log: seq<Throttled>, more: seq<Throttled>, host: string)
    ensures Latest(log + more, host) == if Mentions(more, host) then Latest(more, host) else Latest(log, host)
  {
    if more == [] {
      assert log + more == log;
    } else {
      var init, last := more[..|more| - 1], more[|more| - 1];
      assert (log + more)[..|log + more| - 1] == log + init;
      LatestOfMore(log, init, host);
      if Mentions(init, host) {
        var i :| 0 <= i < |init| && init[i].host == host;
        assert more[i].host == host;
      }
      if last.host == host {
        assert more[|more| - 1].host == host;
      }
    }
  }

  // Between passes `g` and `k` nobody else was told anything by that host, nor asked it.
  ghost predicate Undisturbed(run: Run, g: nat, k: nat, host: string)
    requires Matched(run) && k <= |run.gateways|
  {
    forall j: nat :: g < j < k ==> run.gateways[j].host != Some(host) && !Mentions(run.turns[j].others, host)
  }

  lemma {:induction false} OwnWordIsLatest(run: Run, g: nat, k: nat, host: string)
    requires Matched(run) && g < k <= |run.gateways| && run.gateways[g].host == Some(host)
    requires Asks(run, g) && run.turns[g].attempt.SlowDown? && Undisturbed(run, g, k, host)
    ensures Latest(SeenBefore(run, k), host) == Some(Throttled(host, run.turns[g].attempt.header, run.turns[g].attempt.at))
    decreases k
  {
    hide SeenBefore, SeenAt, Asks, CoolsUntil;
    OnePassMore(run, k - 1);
    if k == g + 1 {
      var word := [Throttled(host, run.turns[g].attempt.header, run.turns[g].attempt.at)];
      LatestOfMore(SeenAt(run, g), word, host);
      assert word[0].host == host;
    } else {
      OwnWordIsLatest(run, g, k - 1, host);
      LatestOfMore(SeenBefore(run, k - 1), run.turns[k - 1].others, host);
      var more := SeenBefore(run, k)[|SeenAt(run, k - 1)|..];
      assert SeenBefore(run, k) == SeenAt(run, k - 1) + more;
      LatestOfMore(SeenAt(run, k - 1), more, host);
      assert !Mentions(more, host);
    }
  }

  // A host that told this very run to slow down, and is named by a later gateway too, is asked
  // again exactly when the run gets there and the wait it asked for has passed.
  lemma AHostNamedTwiceIsLeftAlone(run: Run, g: nat, k: nat, host: string)
    requires Matched(run) && g < k < |run.gateways| && SaneBackoff(run.backoff)
    requires run.gateways[g].host == Some(host) == run.gateways[k].host
    requires Asks(run, g) && run.turns[g].attempt.SlowDown?
    requires Undisturbed(run, g, k, host) && !Mentions(run.turns[k].others, host)
    ensures var attempt := run.turns[g].attempt;
      Reaches(run, k) && Asks(run, k) <==>
        && Reaches(run, k) && !run.turns[k].closedBefore
        && run.turns[k].now >= attempt.at + RetryAfterDelay(attempt.header, run.backoff)
  {
    OwnWordIsLatest(run, g, k, host);
    OnePassMore(run, k);
    hide SeenBefore, SeenAt;
    LatestOfMore(SeenBefore(run, k), run.turns[k].others, host);
    CoolingIsTheLatestWait(SeenAt(run, k), run.backoff, run.gateways[k], run.turns[k].now);
  }
}
