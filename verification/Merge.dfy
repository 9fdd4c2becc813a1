/**
 Merging concurrent provider streams: `parallelDiscovery.FindProvidersAsync` of
 client/routing.go, and the composition in `newProviderFinder`.

 One worker per router reads its stream, admits new ids under a mutex, sends what it
 admitted on the shared channel and cancels the rest once the limit is met. Every
 interleaving of the workers, the reader and the caller's cancellation is covered.
 */
module Merge {
  import opened Wrappers
  import opened Counting

  type Id = string

  datatype Provider = Provider(id: Id, addrs: seq<string>)

  // A place in the input: the worker, and how far along its router's stream.
  datatype Place = Place(worker: nat, index: nat)

  // `late` marks a worker whose admitted provider met the limit.
  datatype Pc =
    | Reading(next: nat)
    | Sending(at: nat, satisfied: bool)
    | Cancelling
    | Finished(late: bool)

  // `seen` carries, as history, the place that claimed each id.
  datatype State = State(
    workers: map<nat, Pc>,
    seen: map<Id, Place>,
    emitted: seq<Place>,
    cancelled: bool,
    abandoned: bool,   // the caller's own context is done
    closed: bool)

  type Streams = seq<seq<Provider>>

  datatype Action =
    | Take(worker: nat)
    | Send(worker: nat)
    | Drop(worker: nat)
    | Cancel(worker: nat)
    | End(worker: nat)
    | Abandon
    | CloseMerged

  // ---------------------------------------------------------------- the critical section

  function Admitted(seen: map<Id, Place>, id: Id, place: Place): (map<Id, Place>, bool) {
    if id in seen then (seen, true) else (seen[id := place], false)
  }

  predicate Satisfied(limit: int, seen: map<Id, Place>) {
    limit > 0 && |seen| >= limit
  }

  class Seen {
    const limit: int
    var seen: map<Id, Place>

    constructor (limit: int)
      ensures this.limit == limit && seen == map[]
    {
      this.limit := limit;
      seen := map[];
    }

    method Admit(id: Id, place: Place) returns (duplicate: bool, satisfied: bool)
      modifies this
      ensures (seen, duplicate) == Admitted(old(seen), id, place)
      ensures satisfied == Satisfied(limit, seen)
    {
      duplicate := id in seen;
      if !duplicate {
        seen := seen[id := place];
      }
      satisfied := limit > 0 && |seen| >= limit;
    }
  }

  // ---------------------------------------------------------------- the machine

  function Readers(n: nat): (workers: map<nat, Pc>)
    ensures forall w: nat :: w in workers <==> w < n
    ensures forall w :: w in workers ==> workers[w] == Reading(0)
    ensures |workers| == n
  {
    if n == 0 then map[]
    else
      var fewer := Readers(n - 1);
      assert n - 1 !in fewer;
      fewer[n - 1 := Reading(0)]
  }

  function Initial(streams: Streams): State {
    State(Readers(|streams|), map[], [], false, false, false)
  }

  predicate At(streams: Streams, p: Place) {
    p.worker < |streams| && p.index < |streams[p.worker]|
  }

  predicate Enabled(streams: Streams, s: State, a: Action) {
    match a
    case Take(w) => w in s.workers && s.workers[w].Reading? && At(streams, Place(w, s.workers[w].next))
    case Send(w) => w in s.workers && s.workers[w].Sending?
    case Drop(w) => w in s.workers && s.workers[w].Sending? && s.cancelled
    case Cancel(w) => w in s.workers && s.workers[w] == Cancelling
    // A router ends its stream when it has no more, or early once the context is done.
    case End(w) => w in s.workers && s.workers[w].Reading? && (!At(streams, Place(w, s.workers[w].next)) || s.cancelled)
    case Abandon => true
    case CloseMerged => !s.closed && forall w :: w in s.workers ==> s.workers[w].Finished?
  }

  function After(streams: Streams, limit: int, s: State, a: Action): State
    requires Enabled(streams, s, a)
  {
    match a
    case Take(w) =>
      var at := s.workers[w].next;
      var (seen, duplicate) := Admitted(s.seen, streams[w][at].id, Place(w, at));
      var pc := if duplicate then Reading(at + 1) else Sending(at, Satisfied(limit, seen));
      s.(seen := seen, workers := s.workers[w := pc])
    case Send(w) =>
      var pc := if s.workers[w].satisfied then Cancelling else Reading(s.workers[w].at + 1);
      s.(emitted := s.emitted + [Place(w, s.workers[w].at)], workers := s.workers[w := pc])
    case Drop(w) => s.(workers := s.workers[w := Finished(s.workers[w].satisfied)])
    case Cancel(w) => s.(cancelled := true, workers := s.workers[w := Finished(true)])
    case End(w) => s.(workers := s.workers[w := Finished(false)])
    case Abandon => s.(cancelled := true, abandoned := true)
    case CloseMerged => s.(closed := true)
  }

  // ---------------------------------------------------------------- invariant

  predicate Late(pc: Pc) {
    pc == Cancelling || (pc.Sending? && pc.satisfied) || (pc.Finished? && pc.late)
  }

  function IdAt(streams: Streams, p: Place): Id
    requires At(streams, p)
  {
    streams[p.worker][p.index].id
  }

  // How far a worker has read: every place before it has been admitted or found a duplicate.
  ghost predicate Passed(s: State, p: Place) {
    p.worker in s.workers &&
    match s.workers[p.worker]
    case Reading(next) => p.index < next
    case Sending(at, _) => p.index <= at
    case _ => true
  }

  ghost predicate ShapeInv(streams: Streams, s: State) {
    && (forall w: nat :: w in s.workers <==> w < |streams|)
    && |s.workers| == |streams|
    && (forall w :: w in s.workers && s.workers[w].Sending? ==>
          At(streams, Place(w, s.workers[w].at)) && InSeen(streams, s, Place(w, s.workers[w].at)))
    && (forall id :: id in s.seen ==> At(streams, s.seen[id]) && IdAt(streams, s.seen[id]) == id && Passed(s, s.seen[id]))
    && (s.closed ==> forall w :: w in s.workers ==> s.workers[w].Finished?)
  }

  ghost predicate InSeen(streams: Streams, s: State, p: Place)
    requires At(streams, p)
  {
    IdAt(streams, p) in s.seen && s.seen[IdAt(streams, p)] == p
  }

  ghost predicate EmitInv(streams: Streams, s: State) {
    && (forall i :: 0 <= i < |s.emitted| ==> At(streams, s.emitted[i]) && InSeen(streams, s, s.emitted[i]) && Sent(s, s.emitted[i]))
    && (forall i, j :: 0 <= i < j < |s.emitted| ==> s.emitted[i] != s.emitted[j])
    && (forall i, j :: 0 <= i < j < |s.emitted| && s.emitted[i].worker == s.emitted[j].worker ==> s.emitted[i].index < s.emitted[j].index)
  }

  // Behind its worker, and not the one still being sent.
  ghost predicate Sent(s: State, p: Place) {
    p.worker in s.workers &&
    match s.workers[p.worker]
    case Reading(next) => p.index < next
    case Sending(at, _) => p.index < at
    case _ => true
  }

  ghost predicate LimitInv(limit: int, s: State) {
    limit > 0 ==> |s.seen| <= limit - 1 + Count(s.workers, Late)
  }

  ghost predicate Inv(streams: Streams, limit: int, s: State) {
    ShapeInv(streams, s) && EmitInv(streams, s) && LimitInv(limit, s)
  }

  lemma TakeKeepsShape(streams: Streams, limit: int, s: State, w: nat)
    requires ShapeInv(streams, s) && Enabled(streams, s, Take(w))
    ensures ShapeInv(streams, After(streams, limit, s, Take(w)))
  {
    var t := After(streams, limit, s, Take(w));
    forall id | id in t.seen
      ensures At(streams, t.seen[id]) && IdAt(streams, t.seen[id]) == id && Passed(t, t.seen[id])
    {
      assert id in s.seen ==> Passed(s, s.seen[id]);
    }
  }

  lemma ShapeStep(streams: Streams, limit: int, s: State, a: Action)
    requires ShapeInv(streams, s) && Enabled(streams, s, a)
    ensures ShapeInv(streams, After(streams, limit, s, a))
  {
    if a.Take? {
      TakeKeepsShape(streams, limit, s, a.worker);
    }
  }

  lemma PlaceStays(streams: Streams, limit: int, s: State, a: Action, p: Place)
    requires Enabled(streams, s, a) && At(streams, p) && InSeen(streams, s, p) && Sent(s, p)
    ensures InSeen(streams, After(streams, limit, s, a), p) && Sent(After(streams, limit, s, a), p)
  {
  }

  // A worker sends what lies just ahead of everything it has sent.
  lemma SendingIsAhead(streams: Streams, s: State, w: nat)
    requires ShapeInv(streams, s) && EmitInv(streams, s) && Enabled(streams, s, Send(w))
    ensures var here := Place(w, s.workers[w].at);
      && At(streams, here) && InSeen(streams, s, here)
      && forall i :: 0 <= i < |s.emitted| && s.emitted[i].worker == w ==> s.emitted[i].index < here.index
  {
  }

  lemma EmitStep(streams: Streams, limit: int, s: State, a: Action)
    requires ShapeInv(streams, s) && EmitInv(streams, s) && Enabled(streams, s, a)
    ensures EmitInv(streams, After(streams, limit, s, a))
  {
    var t := After(streams, limit, s, a);
    forall i | 0 <= i < |s.emitted| ensures InSeen(streams, t, s.emitted[i]) && Sent(t, s.emitted[i]) {
      PlaceStays(streams, limit, s, a, s.emitted[i]);
    }
    if a.Send? {
      SendingIsAhead(streams, s, a.worker);
    }
    hide ShapeInv, Passed, InSeen;
    assert t.emitted == s.emitted + (if a.Send? then [Place(a.worker, s.workers[a.worker].at)] else []);
  }

  lemma LimitStep(streams: Streams, limit: int, s: State, a: Action)
    requires LimitInv(limit, s) && Enabled(streams, s, a)
    ensures LimitInv(limit, After(streams, limit, s, a))
  {
    if !a.Abandon? && !a.CloseMerged? {
      CountUpdate(s.workers, a.worker, After(streams, limit, s, a).workers[a.worker], Late);
    }
  }

  // ---------------------------------------------------------------- whole runs

  function Replay(streams: Streams, limit: int, acts: seq<Action>): Option<State> {
    if acts == [] then Some(Initial(streams))
    else
      var before := Replay(streams, limit, acts[..|acts| - 1]);
      var last := acts[|acts| - 1];
      if before.Some? && Enabled(streams, before.value, last)
      then Some(After(streams, limit, before.value, last)) else None
  }

  ghost predicate Reachable(streams: Streams, limit: int, s: State) {
    exists acts :: Replay(streams, limit, acts) == Some(s)
  }

  lemma {:induction false} RunsKeepInv(streams: Streams, limit: int, acts: seq<Action>)
    ensures Replay(streams, limit, acts).Some? ==> Inv(streams, limit, Replay(streams, limit, acts).value)
  {
    if acts != [] {
      var init, last := acts[..|acts| - 1], acts[|acts| - 1];
      RunsKeepInv(streams, limit, init);
      if Replay(streams, limit, acts).Some? {
        var s := Replay(streams, limit, init).value;
        ShapeStep(streams, limit, s, last);
        EmitStep(streams, limit, s, last);
        LimitStep(streams, limit, s, last);
      }
    }
  }

  lemma ReachableInv(streams: Streams, limit: int, s: State)
    requires Reachable(streams, limit, s)
    ensures Inv(streams, limit, s)
  {
    var acts :| Replay(streams, limit, acts) == Some(s);
    RunsKeepInv(streams, limit, acts);
  }

  lemma ReachStep(streams: Streams, limit: int, s: State, a: Action)
    requires Reachable(streams, limit, s) && Enabled(streams, s, a)
    ensures Reachable(streams, limit, After(streams, limit, s, a))
  {
    var acts :| Replay(streams, limit, acts) == Some(s);
    assert (acts + [a])[..|acts|] == acts;
    assert Replay(streams, limit, acts + [a]) == Some(After(streams, limit, s, a));
  }

  // ---------------------------------------------------------------- safety

  // No id comes out twice, everything that comes out was in some router's stream, and what
  // one worker sends keeps the order of its own.
  lemma MergeIsSafe(streams: Streams, limit: int, s: State)
    requires Reachable(streams, limit, s)
    ensures forall i :: 0 <= i < |s.emitted| ==> At(streams, s.emitted[i])
    ensures forall i, j :: 0 <= i < j < |s.emitted| ==> IdAt(streams, s.emitted[i]) != IdAt(streams, s.emitted[j])
    ensures forall i, j :: 0 <= i < j < |s.emitted| && s.emitted[i].worker == s.emitted[j].worker ==>
      s.emitted[i].index < s.emitted[j].index
  {
    ReachableInv(streams, limit, s);
  }

  // Once a satisfied worker has cancelled, or the caller has, every other worker can stop where it
  // is: one that reads without reading on, one that sends without sending.
  lemma CancellingStopsSiblings(streams: Streams, limit: int, s: State, a: Action, w: nat)
    requires Enabled(streams, s, a) && (a.Cancel? || a == Abandon)
    requires var t := After(streams, limit, s, a); w in t.workers && !t.workers[w].Finished? && t.workers[w] != Cancelling
    ensures var t := After(streams, limit, s, a);
      if t.workers[w].Reading? then Enabled(streams, t, End(w)) && After(streams, limit, t, End(w)).workers[w].Finished?
      else Enabled(streams, t, Drop(w)) && After(streams, limit, t, Drop(w)).workers[w].Finished?
  {
  }

  // Nothing is sent on the merged channel once it is closed, and it is closed once.
  lemma NothingAfterClosing(streams: Streams, limit: int, s: State, a: Action)
    requires Reachable(streams, limit, s) && s.closed && Enabled(streams, s, a)
    ensures a == Abandon
    ensures After(streams, limit, s, a).emitted == s.emitted
  {
    ReachableInv(streams, limit, s);
  }

  lemma {:induction false} DistinctFit(streams: Streams, emitted: seq<Place>, seen: map<Id, Place>)
    requires forall i :: 0 <= i < |emitted| ==>
      At(streams, emitted[i]) && IdAt(streams, emitted[i]) in seen && seen[IdAt(streams, emitted[i])] == emitted[i]
    requires forall i, j :: 0 <= i < j < |emitted| ==> emitted[i] != emitted[j]
    ensures |emitted| <= |seen|
  {
    if emitted != [] {
      var last := emitted[|emitted| - 1];
      var id := IdAt(streams, last);
      var init := emitted[..|emitted| - 1];
      forall i | 0 <= i < |init| ensures IdAt(streams, init[i]) in seen - {id} {
        assert init[i] != last;
      }
      DistinctFit(streams, init, seen - {id});
      assert (seen - {id})[id := seen[id]] == seen;
    }
  }

  // The limit lets through at most one provider too many per sibling.
  lemma LimitOvershoot(streams: Streams, limit: int, s: State)
    requires Reachable(streams, limit, s) && limit > 0
    ensures |s.emitted| <= limit - 1 + |streams|
  {
    ReachableInv(streams, limit, s);
    DistinctFit(streams, s.emitted, s.seen);
    CountWithin(s.workers, Late);
  }

  // ---------------------------------------------------------------- the overshoot happens

  function Name(k: nat): Id {
    seq(k, _ => 'x')
  }

  function Providers(from: nat, count: nat): (ps: seq<Provider>)
    ensures |ps| == count
    ensures forall i :: 0 <= i < count ==> ps[i].id == Name(from + i)
  {
    seq(count, i requires 0 <= i < count => Provider(Name(from + i), []))
  }

  // The first router knows `limit` providers, every other one knows one of its own.
  function Disjoint(limit: nat, n: nat): (streams: Streams)
    requires limit > 0
    ensures |streams| == n
    ensures forall w :: 0 <= w < n ==> |streams[w]| == (if w == 0 then limit else 1)
    ensures forall w, i :: 0 <= w < n && 0 <= i < |streams[w]| ==>
      streams[w][i].id == Name(if w == 0 then i else limit - 1 + w)
  {
    var streams := seq(n, w requires 0 <= w < n => Providers(if w == 0 then 0 else limit - 1 + w, if w == 0 then limit else 1));
    assert forall w :: 0 <= w < n ==> streams[w] == Providers(if w == 0 then 0 else limit - 1 + w, if w == 0 then limit else 1);
    streams
  }

  // Ids below `k` have been seen, and nothing else.
  ghost predicate SeenBelow(s: State, k: nat) {
    && (forall j: nat :: Name(j) in s.seen ==> j < k)
    && |s.seen| == k
  }

  lemma NamesDiffer(j: nat, k: nat)
    requires Name(j) == Name(k)
    ensures j == k
  {
    assert |Name(j)| == j;
    assert |Name(k)| == k;
  }

  // The first worker sends all but one of what the limit allows.
  lemma {:induction false} SendBelowLimit(limit: nat, n: nat, k: nat) returns (s: State)
    requires limit > 0 && n > 0 && k < limit
    ensures Reachable(Disjoint(limit, n), limit, s)
    ensures s.workers == Readers(n)[0 := Reading(k)] && SeenBelow(s, k) && |s.emitted| == k
  {
    var streams := Disjoint(limit, n);
    if k == 0 {
      s := Initial(streams);
      assert Replay(streams, limit, []) == Some(s);
      assert s.workers == Readers(n)[0 := Reading(0)];
    } else {
      var before := SendBelowLimit(limit, n, k - 1);
      ReachStep(streams, limit, before, Take(0));
      var taken := After(streams, limit, before, Take(0));
      forall j: nat | Name(j) in taken.seen ensures j < k {
        if Name(j) == Name(k - 1) { NamesDiffer(j, k - 1); }
      }
      ReachStep(streams, limit, taken, Send(0));
      s := After(streams, limit, taken, Send(0));
    }
  }

  // Then every worker admits one provider before any of them sends.
  lemma {:induction false} AdmitEverywhere(limit: nat, n: nat, m: nat) returns (s: State)
    requires limit > 0 && n > 0 && m <= n
    ensures Reachable(Disjoint(limit, n), limit, s)
    ensures s.workers.Keys == Readers(n).Keys && SeenBelow(s, limit - 1 + m) && |s.emitted| == limit - 1
    ensures forall w :: 0 <= w < m ==> s.workers[w].Sending?
    ensures forall w :: m <= w < n ==> s.workers[w] == Reading(if w == 0 then limit - 1 else 0)
  {
    hide Disjoint, Readers, Replay, Reachable;
    var streams := Disjoint(limit, n);
    if m == 0 {
      s := SendBelowLimit(limit, n, limit - 1);
    } else {
      var before := AdmitEverywhere(limit, n, m - 1);
      ReachStep(streams, limit, before, Take(m - 1));
      s := After(streams, limit, before, Take(m - 1));
      forall j: nat | Name(j) in s.seen ensures j < limit - 1 + m {
        if Name(j) == Name(limit - 2 + m) { NamesDiffer(j, limit - 2 + m); }
      }
    }
  }

  lemma {:induction false} SendEverywhere(limit: nat, n: nat, m: nat) returns (s: State)
    requires limit > 0 && n > 0 && m <= n
    ensures Reachable(Disjoint(limit, n), limit, s)
    ensures s.workers.Keys == Readers(n).Keys && |s.emitted| == limit - 1 + m
    ensures forall w :: m <= w < n ==> s.workers[w].Sending?
  {
    var streams := Disjoint(limit, n);
    if m == 0 {
      s := AdmitEverywhere(limit, n, n);
    } else {
      var before := SendEverywhere(limit, n, m - 1);
      ReachStep(streams, limit, before, Send(m - 1));
      s := After(streams, limit, before, Send(m - 1));
    }
  }

  ghost predicate LimitHolds(limit: int, n: nat) {
    forall streams: Streams, s :: |streams| == n && Reachable(streams, limit, s) ==> |s.emitted| <= limit
  }

  // So a positive limit is a cap on the merge exactly for a single router, and the bound of
  // `LimitOvershoot` is reached for any number of them.
  lemma WhenTheLimitHolds(limit: nat, n: nat)
    requires limit > 0
    ensures LimitHolds(limit, n) <==> n <= 1
    ensures n > 0 ==> exists streams: Streams, s ::
      |streams| == n && Reachable(streams, limit, s) && |s.emitted| == limit - 1 + n
  {
    if n <= 1 {
      forall streams: Streams, s | |streams| == n && Reachable(streams, limit, s) ensures |s.emitted| <= limit {
        LimitOvershoot(streams, limit, s);
      }
    }
    if n > 0 {
      var s := SendEverywhere(limit, n, n);
      assert Reachable(Disjoint(limit, n), limit, s);
    }
  }

  // ---------------------------------------------------------------- completeness

  function AllIds(streams: Streams): set<Id> {
    set w, i | 0 <= w < |streams| && 0 <= i < |streams[w]| :: streams[w][i].id
  }

  predicate Unlimited(streams: Streams, limit: int) {
    limit <= 0 || |AllIds(streams)| < limit
  }

  ghost predicate CompleteInv(streams: Streams, limit: int, s: State) {
    && (forall w :: w in s.workers ==> !Late(s.workers[w]))
    && (s.cancelled ==> s.abandoned)
    && (!s.abandoned ==>
      && (forall p :: At(streams, p) && Passed(s, p) ==> IdAt(streams, p) in s.seen)
      && (forall id :: id in s.seen && Sent(s, s.seen[id]) ==> s.seen[id] in s.emitted))
  }

  lemma SeenWithin(streams: Streams, s: State)
    requires ShapeInv(streams, s)
    ensures |s.seen| <= |AllIds(streams)|
  {
    forall id | id in s.seen ensures id in AllIds(streams) {
      var p := s.seen[id];
      assert streams[p.worker][p.index].id == id;
    }
    SubsetSize(s.seen.Keys, AllIds(streams));
    assert |s.seen.Keys| == |s.seen|;
  }

  lemma NeverSatisfied(streams: Streams, limit: int, s: State)
    requires ShapeInv(streams, s) && Unlimited(streams, limit)
    ensures !Satisfied(limit, s.seen)
  {
    SeenWithin(streams, s);
  }

  // After reading one provider every place passed has its id admitted...
  lemma TakeAdmits(streams: Streams, limit: int, s: State, w: nat, p: Place)
    requires Enabled(streams, s, Take(w)) && At(streams, p) && Passed(After(streams, limit, s, Take(w)), p)
    requires Passed(s, p) ==> IdAt(streams, p) in s.seen
    ensures IdAt(streams, p) in After(streams, limit, s, Take(w)).seen
  {
    assert p == Place(w, s.workers[w].next) || Passed(s, p);
  }

  // ...and none counts as sent that did not before.
  lemma TakeSendsNothing(streams: Streams, limit: int, s: State, w: nat, id: Id)
    requires ShapeInv(streams, s) && Enabled(streams, s, Take(w))
    requires var t := After(streams, limit, s, Take(w)); id in t.seen && Sent(t, t.seen[id])
    ensures id in s.seen && s.seen[id] == After(streams, limit, s, Take(w)).seen[id] && Sent(s, s.seen[id])
  {
  }

  lemma TakeIsNotLate(streams: Streams, limit: int, s: State, w: nat)
    requires Enabled(streams, s, Take(w)) && !Satisfied(limit, After(streams, limit, s, Take(w)).seen)
    requires forall v :: v in s.workers ==> !Late(s.workers[v])
    ensures var t := After(streams, limit, s, Take(w));
      && (forall v :: v in t.workers ==> !Late(t.workers[v]))
      && t.cancelled == s.cancelled && t.abandoned == s.abandoned && t.emitted == s.emitted
  {
  }

  lemma TakeKeepsComplete(streams: Streams, limit: int, s: State, w: nat)
    requires ShapeInv(streams, s) && CompleteInv(streams, limit, s) && Unlimited(streams, limit)
    requires Enabled(streams, s, Take(w))
    ensures CompleteInv(streams, limit, After(streams, limit, s, Take(w)))
  {
    var t := After(streams, limit, s, Take(w));
    ShapeStep(streams, limit, s, Take(w));
    NeverSatisfied(streams, limit, t);
    hide ShapeInv, Satisfied, Unlimited, Passed, Sent, After, Enabled, Late, IdAt;
    TakeIsNotLate(streams, limit, s, w);
    if !s.abandoned {
      forall p | At(streams, p) && Passed(t, p) ensures IdAt(streams, p) in t.seen {
        TakeAdmits(streams, limit, s, w, p);
      }
      forall id | id in t.seen && Sent(t, t.seen[id]) ensures t.seen[id] in t.emitted {
        TakeSendsNothing(streams, limit, s, w, id);
      }
    }
  }

  lemma CompleteStep(streams: Streams, limit: int, s: State, a: Action)
    requires ShapeInv(streams, s) && CompleteInv(streams, limit, s) && Unlimited(streams, limit) && Enabled(streams, s, a)
    ensures CompleteInv(streams, limit, After(streams, limit, s, a))
  {
    if a.Take? {
      TakeKeepsComplete(streams, limit, s, a.worker);
    } else {
      var t := After(streams, limit, s, a);
      forall p | At(streams, p) && Passed(t, p) ensures !t.abandoned ==> IdAt(streams, p) in t.seen {
        assert !t.abandoned ==> Passed(s, p);
      }
      forall id | id in t.seen && Sent(t, t.seen[id]) ensures !t.abandoned ==> t.seen[id] in t.emitted {
        assert !t.abandoned && !a.Send? ==> Sent(s, s.seen[id]);
      }
    }
  }

  lemma {:induction false} RunsKeepComplete(streams: Streams, limit: int, acts: seq<Action>)
    requires Unlimited(streams, limit)
    ensures Replay(streams, limit, acts).Some? ==> CompleteInv(streams, limit, Replay(streams, limit, acts).value)
  {
    if acts != [] {
      var init, last := acts[..|acts| - 1], acts[|acts| - 1];
      RunsKeepComplete(streams, limit, init);
      RunsKeepInv(streams, limit, init);
      if Replay(streams, limit, acts).Some? {
        CompleteStep(streams, limit, Replay(streams, limit, init).value, last);
      }
    }
  }

  // When the caller does not give up and the limit is out of reach, the closed channel has
  // carried every id of every router exactly once.
  lemma MergeIsComplete(streams: Streams, limit: int, s: State, p: Place)
    requires Reachable(streams, limit, s) && s.closed && !s.abandoned && Unlimited(streams, limit)
    requires At(streams, p)
    ensures forall i :: 0 <= i < |s.emitted| ==> At(streams, s.emitted[i])
    ensures exists i :: 0 <= i < |s.emitted| && IdAt(streams, s.emitted[i]) == IdAt(streams, p)
    ensures forall i, j :: 0 <= i < j < |s.emitted| ==> IdAt(streams, s.emitted[i]) != IdAt(streams, s.emitted[j])
  {
    var acts :| Replay(streams, limit, acts) == Some(s);
    RunsKeepComplete(streams, limit, acts);
    MergeIsSafe(streams, limit, s);
    ReachableInv(streams, limit, s);
    assert Passed(s, p);
    var first := s.seen[IdAt(streams, p)];
    assert first in s.emitted;
  }

  // With a reader that drains, the merge can always move until the channel is closed.
  lemma MergeIsNeverStuck(streams: Streams, limit: int, s: State)
    requires Reachable(streams, limit, s) && !s.closed
    ensures exists a :: Enabled(streams, s, a) && a != Abandon
  {
    if w :| w in s.workers && !s.workers[w].Finished? {
      assert Enabled(streams, s, Take(w)) || Enabled(streams, s, End(w)) || Enabled(streams, s, Send(w)) || Enabled(streams, s, Cancel(w));
    } else {
      assert Enabled(streams, s, CloseMerged);
    }
  }

  // No worker waits for another: each can read on, send, stop or cancel as far as it itself is
  // concerned, however the others stand and whether or not the caller has given up.
  lemma NoWorkerIsHeldUp(streams: Streams, limit: int, s: State, w: nat)
    requires w in s.workers
    ensures match s.workers[w]
      case Reading(next) =>
        if At(streams, Place(w, next)) then Enabled(streams, s, Take(w))
        else Enabled(streams, s, End(w)) && After(streams, limit, s, End(w)).workers[w].Finished?
      case Sending(at, satisfied) =>
        Enabled(streams, s, Send(w)) &&
        var t := After(streams, limit, s, Send(w));
        t.emitted == s.emitted + [Place(w, at)] && t.workers[w] == if satisfied then Cancelling else Reading(at + 1)
      case Cancelling => Enabled(streams, s, Cancel(w)) && After(streams, limit, s, Cancel(w)).workers[w].Finished?
      case Finished(_) => true
    ensures Enabled(streams, s, Abandon)
  {
  }

  // ---------------------------------------------------------------- every run ends

  // What a worker has left to do: two steps for each provider still to come, and one to end.
  function Weight(streams: Streams, w: nat, pc: Pc): nat
    requires w < |streams|
  {
    match pc
    case Reading(next) => 2 * Unread(streams, w, next) + 2
    case Sending(at, _) => 2 * Unread(streams, w, at) + 1
    case Cancelling => 1
    case Finished(_) => 0
  }

  function Unread(streams: Streams, w: nat, next: nat): nat
    requires w < |streams|
  {
    if next < |streams[w]| then |streams[w]| - next else 0
  }

  function WorkBelow(streams: Streams, workers: map<nat, Pc>, n: nat): nat
    requires n <= |streams| && forall w: nat :: w < n ==> w in workers
  {
    if n == 0 then 0 else WorkBelow(streams, workers, n - 1) + Weight(streams, n - 1, workers[n - 1])
  }

  // A bound on the steps left until the channel is closed.
  function StepsLeft(streams: Streams, s: State): nat
    requires forall w: nat :: w < |streams| ==> w in s.workers
  {
    WorkBelow(streams, s.workers, |streams|) + if s.closed then 0 else 1
  }

  lemma {:induction false} WorkUpdate(streams: Streams, workers: map<nat, Pc>, n: nat, w: nat, pc: Pc)
    requires n <= |streams| && w < |streams| && w in workers && forall v: nat :: v < n ==> v in workers
    ensures WorkBelow(streams, workers[w := pc], n) ==
      WorkBelow(streams, workers, n) + (if w < n then Weight(streams, w, pc) - Weight(streams, w, workers[w]) else 0)
  {
    if n > 0 {
      WorkUpdate(streams, workers, n - 1, w, pc);
    }
  }

  lemma WorkerGetsOn(streams: Streams, limit: int, s: State, a: Action)
    requires ShapeInv(streams, s) && Enabled(streams, s, a) && !a.Abandon? && !a.CloseMerged?
    ensures var t := After(streams, limit, s, a);
      && a.worker < |streams| && a.worker in t.workers && t.workers == s.workers[a.worker := t.workers[a.worker]]
      && Weight(streams, a.worker, t.workers[a.worker]) < Weight(streams, a.worker, s.workers[a.worker])
      && t.closed == s.closed
  {
  }

  // With a reader that drains, every step brings the closing of the channel nearer.
  lemma EveryStepCounts(streams: Streams, limit: int, s: State, a: Action)
    requires ShapeInv(streams, s) && Enabled(streams, s, a) && a != Abandon
    ensures var t := After(streams, limit, s, a);
      ShapeInv(streams, t) && StepsLeft(streams, t) < StepsLeft(streams, s)
  {
    ShapeStep(streams, limit, s, a);
    if !a.CloseMerged? {
      WorkerGetsOn(streams, limit, s, a);
      hide ShapeInv, Enabled, After;
      WorkUpdate(streams, s.workers, |streams|, a.worker, After(streams, limit, s, a).workers[a.worker]);
    }
  }

  // So a run that starts in a reachable state, whether or not the caller has given up by then,
  // closes the channel after at most `StepsLeft` steps: it cannot go on longer, and by
  // `MergeIsNeverStuck` it cannot stop sooner.
  lemma {:induction false} RunsAreBounded(streams: Streams, limit: int, acts: seq<Action>, more: seq<Action>)
    requires Replay(streams, limit, acts + more).Some? && Abandon !in more
    ensures Replay(streams, limit, acts).Some?
    ensures ShapeInv(streams, Replay(streams, limit, acts).value)
    ensures ShapeInv(streams, Replay(streams, limit, acts + more).value)
    ensures |more| + StepsLeft(streams, Replay(streams, limit, acts + more).value)
      <= StepsLeft(streams, Replay(streams, limit, acts).value)
  {
    if more == [] {
      assert acts + more == acts;
      RunsKeepInv(streams, limit, acts);
    } else {
      var init, last := more[..|more| - 1], more[|more| - 1];
      assert (acts + more)[..|acts + more| - 1] == acts + init;
      RunsAreBounded(streams, limit, acts, init);
      assert last in more;
      hide ShapeInv, StepsLeft;
      EveryStepCounts(streams, limit, Replay(streams, limit, acts + init).value, last);
    }
  }

  // ---------------------------------------------------------------- newProviderFinder

  datatype Finder<T> = NoRouting | Single(router: T) | Parallel(routers: seq<T>)

  // Nothing comes of no router that is there, the router itself of one, and all of them in order
  // of more: `places` are where they stand among those given.
  method NewProviderFinder<T>(routers: seq<Option<T>>) returns (finder: Finder<T>, ghost places: seq<nat>)
    ensures forall i, j :: 0 <= i < j < |places| ==> places[i] < places[j]
    ensures forall i :: 0 <= i < |places| ==> places[i] < |routers|
    ensures forall i: nat :: i < |routers| ==> (routers[i].Some? <==> i in places)
    ensures |places| == 0 ==> finder == NoRouting
    ensures |places| == 1 ==> finder.Single? && routers[places[0]] == Some(finder.router)
    ensures |places| >= 2 ==>
      && finder.Parallel? && |finder.routers| == |places|
      && forall k :: 0 <= k < |places| ==> routers[places[k]] == Some(finder.routers[k])
  {
    var configured: seq<T> := [];
    places := [];
    for i := 0 to |routers|
      invariant |configured| == |places|
      invariant forall k :: 0 <= k < |places| ==> places[k] < i && routers[places[k]] == Some(configured[k])
      invariant forall k, l :: 0 <= k < l < |places| ==> places[k] < places[l]
      invariant forall j: nat :: j < i ==> (routers[j].Some? <==> j in places)
    {
      if routers[i].Some? {
        configured := configured + [routers[i].value];
        ghost var before := places;
        places := places + [i];
        assert forall j: nat :: j in places <==> j in before || j == i;
      }
    }

    match |configured|
    case 0 => finder := NoRouting;
    case 1 => finder := Single(configured[0]);
    case _ => finder := Parallel(configured);
  }
}
